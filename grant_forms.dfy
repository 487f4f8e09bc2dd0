/** The grant forms of the frontend: the location combined from a country
    and a region and split back when a grant is loaded, the validation of
    the create form and of the update form, loading an existing grant
    into the update form, and the request payloads. */
module GrantForms {
  import opened Common
  import opened Strings
  import Dates

  // ---------------------------------------------------------------- form data

  /** The form state; every field is the text of its input. */
  datatype Form = Form(
    organizationName: string,
    amountCurrency: string,
    amountValue: string,
    contactEmail: string,
    location: string,
    organizationType: string,
    applicationLink: string,
    program: string,
    notes: string,
    status: string,
    contactTel: string,
    applicationDeadline: string,
    awardDate: string,
    requiredDocuments: seq<nat>)

  /** `initialFormData` of both forms. */
  const InitialForm: Form := Form("", "USD", "", "", "", "normal", "", "", "", "pending", "", "", "", [])

  // ---------------------------------------------------------------- location

  const LocationSeparator: string := " - "

  /** `updateCombinedLocation`: "country - region" when both are given,
      otherwise whichever is given, or "". */
  function Combine(country: string, region: string): (location: string)
    ensures country != "" && region != "" ==> location == country + " - " + region
    ensures country == "" || region == "" ==> location == country + region
  {
    if country != "" && region != "" then country + LocationSeparator + region
    else if country != "" then country
    else region
  }

  /** The location split of the update form: the country is the text
      before the first " - " (or all of it), the region the rest re-joined
      with " - " (or ""). */
  function SplitLocation(location: string): (r: (string, string))
    ensures location == "" ==> r == ("", "")
    ensures IndexOf(location, LocationSeparator).None? ==> r == (location, "")
    ensures IndexOf(location, LocationSeparator).Some? ==>
      var i := IndexOf(location, LocationSeparator).value;
      r == (location[..i], location[i + |LocationSeparator|..])
  {
    SplitHeadAndTail(location, LocationSeparator);
    if location == "" then ("", "")
    else
      var parts := Split(location, LocationSeparator);
      var country := parts[0];
      var region := if |parts| > 1 then Join(parts[1..], LocationSeparator) else "";
      (country, region)
  }

  predicate EndsWith(s: string, suffix: string) {
    |suffix| <= |s| && s[|s| - |suffix|..] == suffix
  }

  /** A " - " that starts inside the country and ends after it can only
      come from a country ending in " -". */
  lemma StraddlingSeparator(country: string, region: string, j: nat)
    requires OccursAt(country + LocationSeparator + region, LocationSeparator, j)
    requires j < |country| < j + 3
    ensures j == |country| - 2 && EndsWith(country, " -")
  {
    var s := country + LocationSeparator + region;
    assert s[j + 1] == s[j..j + 3][1] == '-';
    assert s[|country|] == ' ';
    assert j + 1 != |country|;
    assert country[|country| - 2..] == s[j..j + 2] == s[j..j + 3][..2];
  }

  /** The first " - " of "country - region" is the one `Combine` put there,
      as long as the country neither contains " - " nor ends in " -". */
  lemma {:induction false} SeparatorAfterCountry(country: string, region: string)
    requires !Contains(country, LocationSeparator) && !EndsWith(country, " -")
    ensures IndexOf(country + LocationSeparator + region, LocationSeparator) == Some(|country|)
  {
    var s := country + LocationSeparator + region;
    assert s[|country|..|country| + 3] == LocationSeparator;
    assert OccursAt(s, LocationSeparator, |country|);
    var k := IndexOf(s, LocationSeparator);
    assert k.Some?;
    if k.value < |country| {
      var j := k.value;
      assert OccursAt(s, LocationSeparator, j);
      if j + 3 <= |country| {
        assert s[j..j + 3] == country[j..j + 3];
        assert OccursAt(country, LocationSeparator, j);
        assert false;
      } else {
        StraddlingSeparator(country, region, j);
        assert false;
      }
    }
  }

  /** Splitting a combined location gives back its country and region when
      both are given, and a country alone when only the country is. */
  lemma SplitCombine(country: string, region: string)
    requires !Contains(country, LocationSeparator) && !EndsWith(country, " -")
    ensures country != "" && region != "" ==> SplitLocation(Combine(country, region)) == (country, region)
    ensures country != "" && region == "" ==> SplitLocation(Combine(country, region)) == (country, "")
  {
    if country != "" && region != "" {
      var s := country + LocationSeparator + region;
      SeparatorAfterCountry(country, region);
      SplitHeadAndTail(s, LocationSeparator);
      assert s[..|country|] == country;
      assert s[|country| + 3..] == region;
    }
    if country != "" && region == "" {
      SplitHeadAndTail(country, LocationSeparator);
    }
  }

  /** Combining a split location gives it back whenever the split yields
      both a country and a region. */
  lemma CombineSplit(location: string)
    ensures var r := SplitLocation(location);
      r.0 != "" && r.1 != "" ==> Combine(r.0, r.1) == location
  {
    if location != "" {
      var parts := Split(location, LocationSeparator);
      JoinSplit(location, LocationSeparator);
      if |parts| > 1 {
        assert Join(parts, LocationSeparator) == parts[0] + LocationSeparator + Join(parts[1..], LocationSeparator);
      }
    }
  }

  // ---------------------------------------------------------------- number, email, link, dates

  /** The number of leading decimal digits. */
  function DigitRun(s: string): (n: nat)
    ensures n <= |s|
    ensures forall i :: 0 <= i < n ==> IsDigit(s[i])
    ensures n == |s| || !IsDigit(s[n])
  {
    if s != [] && IsDigit(s[0]) then 1 + DigitRun(s[1..]) else 0
  }

  predicate HasNonZero(s: string) {
    exists i :: 0 <= i < |s| && s[i] != '0'
  }

  /** JavaScript's `parseFloat`, as far as validation asks: `None` for NaN,
      otherwise whether the number is below zero. It reads a leading sign,
      "Infinity", or digits with an optional fraction, after leading
      whitespace, and ignores whatever follows. */
  function ParseFloatSign(s: string): Option<bool> {
    var t := TrimStart(s);
    var signed := |t| > 0 && (t[0] == '-' || t[0] == '+');
    var negative := |t| > 0 && t[0] == '-';
    var body := if signed then t[1..] else t;
    if |body| >= 8 && body[..8] == "Infinity" then Some(negative)
    else
      var n := DigitRun(body);
      var rest := body[n..];
      var m := if |rest| > 0 && rest[0] == '.' then DigitRun(rest[1..]) else 0;
      if n == 0 && m == 0 then None
      else Some(negative && (HasNonZero(body[..n]) || (m > 0 && HasNonZero(rest[1..1 + m]))))
  }

  /** The amount is given and parses to a number that is not negative. */
  predicate AmountOk(amount: string) {
    Trim(amount) != "" && ParseFloatSign(amount) == Some(false)
  }

  /** A digit string with a non-zero value has a non-zero digit. */
  lemma {:induction false} NonZeroDigits(s: string)
    requires forall i :: 0 <= i < |s| ==> IsDigit(s[i])
    requires ParseDigits(s) > 0
    ensures HasNonZero(s)
  {
    var init := s[..|s| - 1];
    if s[|s| - 1] == '0' {
      NonZeroDigits(init);
      var i :| 0 <= i < |init| && init[i] != '0';
      assert s[i] != '0';
    } else {
      assert s[|s| - 1] != '0';
    }
  }

  /** A whole amount written in decimal is accepted. */
  lemma WholeAmountAccepted(n: nat)
    ensures AmountOk(NatToString(n))
  {
    var s := NatToString(n);
    assert TrimStart(s) == s;
    assert TrimEnd(s) == s;
    assert DigitRun(s) == |s|;
  }

  /** The negation of a non-zero whole amount is rejected. */
  lemma NegativeAmountRejected(n: nat)
    requires n > 0
    ensures !AmountOk("-" + NatToString(n))
  {
    var s := NatToString(n);
    var m := "-" + s;
    assert TrimStart(m) == m;
    assert m[1..] == s;
    assert DigitRun(s) == |s|;
    ParseNatToString(n);
    NonZeroDigits(s);
    assert s[..|s|] == s;
  }

  /** Text without digits is rejected. */
  lemma NonNumericAmountsRejected()
    ensures ParseFloatSign("abc") == None && ParseFloatSign("-") == None
    ensures !AmountOk("abc") && !AmountOk("-") && !AmountOk("")
  {
    assert TrimStart("abc") == "abc";
    assert TrimStart("-") == "-";
  }

  /** Not whitespace (the regular expression class `\S`). */
  predicate NonSpace(c: char) {
    !IsSpace(c)
  }

  predicate NonSpaceBetween(s: string, i: int, j: int) {
    forall k :: i < k < j && 0 <= k < |s| ==> NonSpace(s[k])
  }

  /** An "@" at `i` and a "." at `j`, with a non-space character before
      the "@", only non-space characters between them, and a non-space
      character after the ".". */
  predicate EmailAt(s: string, i: int, j: int) {
    0 < i && i + 1 < j && j + 1 < |s| && s[i] == '@' && s[j] == '.' &&
    NonSpace(s[i - 1]) && NonSpace(s[j + 1]) && NonSpaceBetween(s, i, j)
  }

  /** `/\S+@\S+\.\S+/.test(email)`. */
  predicate EmailLike(s: string) {
    exists i, j | 0 < i < j < |s| :: EmailAt(s, i, j)
  }

  lemma EmailExamples()
    ensures EmailLike("a@b.c")
    ensures !EmailLike("a@b") && !EmailLike("@b.c")
  {
    assert EmailAt("a@b.c", 1, 3);
  }

  predicate LineTerminator(c: char) {
    c == '\n' || c == '\r' || c == '\U{2028}' || c == '\U{2029}'
  }

  predicate StartsWith(s: string, prefix: string) {
    |prefix| <= |s| && s[..|prefix|] == prefix
  }

  /** `/^https?:\/\/.+/.test(link)`: "http://" or "https://" followed by at
      least one character that ends no line. */
  predicate LinkLike(s: string) {
    (StartsWith(s, "http://") && |s| > 7 && !LineTerminator(s[7])) ||
    (StartsWith(s, "https://") && |s| > 8 && !LineTerminator(s[8]))
  }

  /** `new Date(a) >= new Date(b)` for the texts of two date inputs; an
      unreadable date compares as false. */
  predicate DateNotBefore(a: string, b: string) {
    var da := Dates.ParseIsoDate(a);
    var db := Dates.ParseIsoDate(b);
    da.Some? && db.Some? && !Dates.Before(da.value, db.value)
  }

  // ---------------------------------------------------------------- the rules

  predicate NameOk(f: Form) {
    Trim(f.organizationName) != "" && |Trim(f.organizationName)| <= 255
  }

  /** An empty phone number is fine; another must be valid and at most 20
      characters. */
  predicate PhoneOk(f: Form, phoneValid: string -> bool) {
    Trim(f.contactTel) == "" || (phoneValid(f.contactTel) && |f.contactTel| <= 20)
  }

  predicate LocationOk(f: Form, country: string, region: string) {
    country != "" && Trim(region) != "" && |Trim(f.location)| <= 255
  }

  predicate DatesOk(f: Form) {
    f.applicationDeadline == "" || f.awardDate == "" || !DateNotBefore(f.applicationDeadline, f.awardDate)
  }

  /** The rules of the update form. */
  predicate UpdateFormValid(f: Form, country: string, region: string, phoneValid: string -> bool) {
    NameOk(f) && Trim(f.amountCurrency) != "" && AmountOk(f.amountValue) && PhoneOk(f, phoneValid) &&
    Trim(f.contactEmail) != "" && EmailLike(f.contactEmail) && LocationOk(f, country, region) &&
    f.organizationType != "" && (f.applicationLink == "" || LinkLike(f.applicationLink)) && DatesOk(f)
  }

  /** The rules of the create form: those of the update form plus length
      limits on the currency, the email and the link. */
  predicate CreateFormValid(f: Form, country: string, region: string, phoneValid: string -> bool) {
    NameOk(f) && Trim(f.amountCurrency) != "" && |Trim(f.amountCurrency)| <= 10 && AmountOk(f.amountValue) &&
    PhoneOk(f, phoneValid) && Trim(f.contactEmail) != "" && EmailLike(f.contactEmail) &&
    |Trim(f.contactEmail)| <= 254 && LocationOk(f, country, region) && f.organizationType != "" &&
    (f.applicationLink == "" || (LinkLike(f.applicationLink) && |f.applicationLink| <= 200)) && DatesOk(f)
  }

  /** A form the create form accepts is one the update form accepts. */
  lemma CreateRulesStricter(f: Form, country: string, region: string, phoneValid: string -> bool)
    ensures CreateFormValid(f, country, region, phoneValid) ==> UpdateFormValid(f, country, region, phoneValid)
    ensures (UpdateFormValid(f, country, region, phoneValid) && |Trim(f.amountCurrency)| <= 10 &&
             |Trim(f.contactEmail)| <= 254 && |f.applicationLink| <= 200) ==>
      CreateFormValid(f, country, region, phoneValid)
  {
  }

  // ---------------------------------------------------------------- validateForm

  /** The form's fields, by their keys in the `errors` object and in the
      request body. */
  datatype Key = OrganizationName | AmountCurrency | AmountValue | ContactEmail | Location
               | OrganizationType | ApplicationLink | Program | Notes | Status | ContactTel
               | ApplicationDeadline | AwardDate

  function KeyName(k: Key): string {
    match k
    case OrganizationName => "organization_name"
    case AmountCurrency => "amount_currency"
    case AmountValue => "amount_value"
    case ContactEmail => "contact_email"
    case Location => "location"
    case OrganizationType => "organization_type"
    case ApplicationLink => "application_link"
    case Program => "program"
    case Notes => "notes"
    case Status => "status"
    case ContactTel => "contact_tel"
    case ApplicationDeadline => "application_deadline"
    case AwardDate => "award_date"
  }

  /** The text of a form field. */
  function FormField(f: Form, k: Key): string {
    match k
    case OrganizationName => f.organizationName
    case AmountCurrency => f.amountCurrency
    case AmountValue => f.amountValue
    case ContactEmail => f.contactEmail
    case Location => f.location
    case OrganizationType => f.organizationType
    case ApplicationLink => f.applicationLink
    case Program => f.program
    case Notes => f.notes
    case Status => f.status
    case ContactTel => f.contactTel
    case ApplicationDeadline => f.applicationDeadline
    case AwardDate => f.awardDate
  }

  // The checks of `validateForm`, one field at a time: each gives the
  // message the field gets, or `None` when it passes. Where the two forms
  // differ, `create` selects the create form's rule.

  function NameMessage(f: Form): (m: Option<string>)
    ensures m.None? <==> NameOk(f)
  {
    if Trim(f.organizationName) == "" then Some("Organization name is required")
    else if |Trim(f.organizationName)| > 255 then Some("Max 255 chars")
    else None
  }

  function CurrencyMessage(f: Form, create: bool): (m: Option<string>)
    ensures m.None? <==> Trim(f.amountCurrency) != "" && (create ==> |Trim(f.amountCurrency)| <= 10)
  {
    if Trim(f.amountCurrency) == "" then Some("Amount currency is required")
    else if create && |Trim(f.amountCurrency)| > 10 then Some("Max 10 chars")
    else None
  }

  function AmountMessage(f: Form): (m: Option<string>)
    ensures m.None? <==> AmountOk(f.amountValue)
  {
    if Trim(f.amountValue) == "" then Some("Amount value is required")
    else if ParseFloatSign(f.amountValue) != Some(false) then Some("Must be a valid positive number")
    else None
  }

  function PhoneMessage(f: Form, phoneValid: string -> bool): (m: Option<string>)
    ensures m.None? <==> PhoneOk(f, phoneValid)
  {
    if f.contactTel != "" && Trim(f.contactTel) != "" then
      if !phoneValid(f.contactTel) then Some("Invalid phone number format")
      else if |f.contactTel| > 20 then Some("Phone number seems too long (max 20 chars with code)")
      else None
    else None
  }

  function EmailMessage(f: Form, create: bool): (m: Option<string>)
    ensures m.None? <==> (Trim(f.contactEmail) != "" && EmailLike(f.contactEmail) &&
                          (create ==> |Trim(f.contactEmail)| <= 254))
    ensures m == Some("Max 254 chars") <==> (create && Trim(f.contactEmail) != "" && EmailLike(f.contactEmail) &&
                                             |Trim(f.contactEmail)| > 254)
  {
    if Trim(f.contactEmail) == "" then Some("Contact email is required")
    else if !EmailLike(f.contactEmail) then Some("Invalid email format")
    else if create && |Trim(f.contactEmail)| > 254 then Some("Max 254 chars")
    else None
  }

  function LocationMessage(f: Form, country: string, region: string): (m: Option<string>)
    ensures m.None? <==> LocationOk(f, country, region)
    ensures country == "" ==> m == Some("Country is required.")
    ensures country != "" && Trim(region) == "" ==> m == Some("Region/City is required.")
  {
    if country == "" then Some("Country is required.")
    else if Trim(region) == "" then Some("Region/City is required.")
    else if |Trim(f.location)| > 255 then Some("Combined location is too long (max 255 chars)")
    else None
  }

  function OrganizationTypeMessage(f: Form): (m: Option<string>)
    ensures m.None? <==> f.organizationType != ""
  {
    if f.organizationType == "" then Some("Organization type is required") else None
  }

  /** On the create form the length check comes after the format check and
      overwrites its message. */
  function LinkMessage(f: Form, create: bool): (m: Option<string>)
    ensures m.None? <==> (f.applicationLink == "" || (LinkLike(f.applicationLink) && (create ==> |f.applicationLink| <= 200)))
    ensures create && f.applicationLink != "" && |f.applicationLink| > 200 ==> m == Some("Max 200 chars")
  {
    var format := if f.applicationLink != "" && !LinkLike(f.applicationLink) then Some("Invalid URL format") else None;
    if create && f.applicationLink != "" && |f.applicationLink| > 200 then Some("Max 200 chars") else format
  }

  function DatesMessage(f: Form): (m: Option<string>)
    ensures m.None? <==> DatesOk(f)
  {
    if f.applicationDeadline != "" && f.awardDate != "" && DateNotBefore(f.applicationDeadline, f.awardDate) then
      Some("Award date must be after application deadline")
    else None
  }

  /** Every check of one of the forms passes. */
  predicate Passes(f: Form, country: string, region: string, phoneValid: string -> bool, create: bool) {
    NameMessage(f).None? && CurrencyMessage(f, create).None? && AmountMessage(f).None? &&
    PhoneMessage(f, phoneValid).None? && EmailMessage(f, create).None? &&
    LocationMessage(f, country, region).None? && OrganizationTypeMessage(f).None? &&
    LinkMessage(f, create).None? && DatesMessage(f).None?
  }

  /** The checks of the update form pass iff its rules hold. */
  lemma UpdateChecksMeanRules(f: Form, country: string, region: string, phoneValid: string -> bool)
    ensures Passes(f, country, region, phoneValid, false) <==> UpdateFormValid(f, country, region, phoneValid)
  {
  }

  /** The checks of the create form pass iff its rules hold. */
  lemma CreateChecksMeanRules(f: Form, country: string, region: string, phoneValid: string -> bool)
    ensures Passes(f, country, region, phoneValid, true) <==> CreateFormValid(f, country, region, phoneValid)
  {
  }

  /** `errors` holds the message of field `k` exactly when it has one. */
  predicate Recorded(errors: map<Key, string>, k: Key, message: Option<string>) {
    match message
    case None => k !in errors
    case Some(m) => k in errors && errors[k] == m
  }

  /** The outcome of each check, in the order `validateForm` runs them. */
  datatype Checks = Checks(
    name: Option<string>, currency: Option<string>, amount: Option<string>,
    phone: Option<string>, email: Option<string>, location: Option<string>,
    organizationType: Option<string>, link: Option<string>, dates: Option<string>)

  /** Only the fields in `ks` differ between `before` and `after`. */
  predicate Keeps(before: map<Key, string>, after: map<Key, string>, ks: set<Key>) {
    forall j :: j !in ks ==> (j in after <==> j in before) && (j in before ==> after[j] == before[j])
  }

  /** Three successive `if (failed) newErrors[key] = message` steps for
      fields not yet recorded. */
  method RecordThree(errors: map<Key, string>, k1: Key, m1: Option<string>, k2: Key, m2: Option<string>,
                     k3: Key, m3: Option<string>) returns (updated: map<Key, string>)
    requires k1 != k2 && k2 != k3 && k1 != k3
    requires k1 !in errors && k2 !in errors && k3 !in errors
    ensures Recorded(updated, k1, m1) && Recorded(updated, k2, m2) && Recorded(updated, k3, m3)
    ensures Keeps(errors, updated, {k1, k2, k3})
    ensures m1.None? && m2.None? && m3.None? ==> updated == errors
  {
    updated := errors;
    if m1.Some? { updated := updated[k1 := m1.value]; }
    if m2.Some? { updated := updated[k2 := m2.value]; }
    if m3.Some? { updated := updated[k3 := m3.value]; }
  }

  /** The body of `validateForm` after the checks: each failing check writes
      its message under its field's key, and nothing else is written. */
  method RecordMessages(c: Checks) returns (errors: map<Key, string>)
    ensures Recorded(errors, OrganizationName, c.name) && Recorded(errors, AmountCurrency, c.currency)
    ensures Recorded(errors, AmountValue, c.amount) && Recorded(errors, ContactTel, c.phone)
    ensures Recorded(errors, ContactEmail, c.email) && Recorded(errors, Location, c.location)
    ensures Recorded(errors, OrganizationType, c.organizationType) && Recorded(errors, ApplicationLink, c.link)
    ensures Recorded(errors, AwardDate, c.dates)
    ensures errors == map[] <==> (c.name.None? && c.currency.None? && c.amount.None? && c.phone.None? &&
                                  c.email.None? && c.location.None? && c.organizationType.None? &&
                                  c.link.None? && c.dates.None?)
  {
    var none: map<Key, string> := map[];
    var grant := RecordThree(none, OrganizationName, c.name, AmountCurrency, c.currency, AmountValue, c.amount);
    errors := RecordRest(grant, c);
  }

  /** The six steps after the grant fields, for the contact, location and
      application fields. */
  method RecordRest(grant: map<Key, string>, c: Checks) returns (errors: map<Key, string>)
    requires ContactTel !in grant && ContactEmail !in grant && Location !in grant
    requires OrganizationType !in grant && ApplicationLink !in grant && AwardDate !in grant
    ensures Recorded(errors, ContactTel, c.phone) && Recorded(errors, ContactEmail, c.email)
    ensures Recorded(errors, Location, c.location) && Recorded(errors, OrganizationType, c.organizationType)
    ensures Recorded(errors, ApplicationLink, c.link) && Recorded(errors, AwardDate, c.dates)
    ensures Keeps(grant, errors, {ContactTel, ContactEmail, Location, OrganizationType, ApplicationLink, AwardDate})
    ensures (c.phone.None? && c.email.None? && c.location.None? && c.organizationType.None? &&
             c.link.None? && c.dates.None?) ==> errors == grant
  {
    var contact := RecordThree(grant, ContactTel, c.phone, ContactEmail, c.email, Location, c.location);
    errors := RecordThree(contact, OrganizationType, c.organizationType, ApplicationLink, c.link, AwardDate, c.dates);
  }

  /** The checks of one of the forms. */
  function RunChecks(f: Form, country: string, region: string, phoneValid: string -> bool, create: bool): (c: Checks)
    ensures c.name.None? && c.currency.None? && c.amount.None? && c.phone.None? && c.email.None? &&
            c.location.None? && c.organizationType.None? && c.link.None? && c.dates.None?
            <==> Passes(f, country, region, phoneValid, create)
  {
    Checks(NameMessage(f), CurrencyMessage(f, create), AmountMessage(f), PhoneMessage(f, phoneValid),
           EmailMessage(f, create), LocationMessage(f, country, region), OrganizationTypeMessage(f),
           LinkMessage(f, create), DatesMessage(f))
  }

  /** `validateForm`: runs the checks of one of the forms, records each
      message under its field, and passes iff none was recorded. */
  method ValidateForm(f: Form, country: string, region: string, phoneValid: string -> bool, create: bool)
    returns (errors: map<Key, string>, ok: bool)
    ensures Recorded(errors, OrganizationName, NameMessage(f))
    ensures Recorded(errors, AmountCurrency, CurrencyMessage(f, create))
    ensures Recorded(errors, AmountValue, AmountMessage(f))
    ensures Recorded(errors, ContactTel, PhoneMessage(f, phoneValid))
    ensures Recorded(errors, ContactEmail, EmailMessage(f, create))
    ensures Recorded(errors, Location, LocationMessage(f, country, region))
    ensures Recorded(errors, OrganizationType, OrganizationTypeMessage(f))
    ensures Recorded(errors, ApplicationLink, LinkMessage(f, create))
    ensures Recorded(errors, AwardDate, DatesMessage(f))
    ensures ok <==> errors == map[]
    ensures ok <==> if create then CreateFormValid(f, country, region, phoneValid) else UpdateFormValid(f, country, region, phoneValid)
  {
    var checks := RunChecks(f, country, region, phoneValid, create);
    errors := RecordMessages(checks);
    ok := errors == map[];
    if create {
      CreateChecksMeanRules(f, country, region, phoneValid);
    } else {
      UpdateChecksMeanRules(f, country, region, phoneValid);
    }
  }

  // ---------------------------------------------------------------- loading

  /** A grant as the API returns it: its text fields, absent or null ones
      left out. */
  type GrantRecord = map<string, string>

  /** `record.key || fallback`. */
  function FieldOr(rec: GrantRecord, key: string, fallback: string): string {
    if key in rec && rec[key] != "" then rec[key] else fallback
  }

  /** `value.split('T')[0]`: the text before the first "T". */
  function BeforeT(s: string): (r: string)
    ensures IndexOf(s, "T").None? ==> r == s
    ensures IndexOf(s, "T").Some? ==> r == s[..IndexOf(s, "T").value]
    ensures !Contains(r, "T")
  {
    var parts := Split(s, "T");
    SplitHeadAndTail(s, "T");
    match IndexOf(s, "T")
    case None => assert parts[0] == s; parts[0]
    case Some(i) =>
      assert parts[0] == s[..i];
      assert forall j: nat :: OccursAt(s[..i], "T", j) ==> OccursAt(s, "T", j) by {
        forall j: nat | OccursAt(s[..i], "T", j) ensures OccursAt(s, "T", j) {
          assert s[..i][j..j + 1] == s[j..j + 1];
        }
      }
      parts[0]
  }

  /** A character that does not occur is not found. */
  lemma AbsentCharNotFound(s: string, c: char)
    requires forall k :: 0 <= k < |s| ==> s[k] != c
    ensures IndexOf(s, [c]).None?
  {
    forall j: nat | j + 1 <= |s|
      ensures !OccursAt(s, [c], j)
    {
      assert s[j..j + 1][0] == s[j];
    }
  }

  /** The first occurrence of a character that `s` lacks, in `s` followed
      by that character, is right after `s`. */
  lemma FirstAfterPrefix(s: string, c: char, rest: string)
    requires forall k :: 0 <= k < |s| ==> s[k] != c
    ensures IndexOf(s + [c] + rest, [c]) == Some(|s|)
  {
    var t := s + [c] + rest;
    forall j: nat | j < |s|
      ensures !OccursAt(t, [c], j)
    {
      assert t[j..j + 1][0] == t[j] == s[j];
    }
    assert t[|s|..|s| + 1] == [c];
    assert OccursAt(t, [c], |s|);
    assert IndexOf(t, [c]).Some?;
  }

  /** An ISO date keeps its text; a timestamp keeps its date part. */
  lemma BeforeTExamples(d: Dates.Date, time: string)
    requires Dates.Valid(d)
    ensures BeforeT(Dates.IsoDate(d)) == Dates.IsoDate(d)
    ensures BeforeT(Dates.IsoDate(d) + "T" + time) == Dates.IsoDate(d)
  {
    var s := Dates.IsoDate(d);
    assert forall k :: 0 <= k < |s| ==> s[k] != 'T';
    AbsentCharNotFound(s, 'T');
    SplitHeadAndTail(s, "T");
    var t := s + "T" + time;
    FirstAfterPrefix(s, 'T', time);
    SplitHeadAndTail(t, "T");
    assert t[..|s|] == s;
  }

  /** What the update form shows for an existing grant, with the country
      and region split from its location. */
  datatype Loaded = Loaded(form: Form, country: string, region: string)

  /** The effect of the update form's `existingGrant` hooks. */
  function LoadGrant(existing: Option<GrantRecord>, documents: Option<seq<nat>>): (r: Loaded)
    ensures existing.None? ==> r == Loaded(InitialForm, "", "")
    ensures existing.Some? ==>
      var rec := existing.value;
      (r.country, r.region) == SplitLocation(r.form.location) &&
      r.form.location == FieldOr(rec, "location", "") &&
      r.form.organizationName == FieldOr(rec, "organization_name", "") &&
      r.form.amountCurrency == FieldOr(rec, "amount_currency", "USD") &&
      r.form.amountValue == FieldOr(rec, "amount_value", "") &&
      r.form.contactEmail == FieldOr(rec, "contact_email", "") &&
      r.form.organizationType == Lower(FieldOr(rec, "organization_type", "normal")) &&
      r.form.applicationLink == FieldOr(rec, "application_link", "") &&
      r.form.program == FieldOr(rec, "program", "") &&
      r.form.notes == FieldOr(rec, "notes", "") &&
      r.form.status == Lower(FieldOr(rec, "status", "pending")) &&
      r.form.contactTel == FieldOr(rec, "contact_tel", "") &&
      r.form.requiredDocuments == documents.GetOr([])
    ensures existing.Some? ==>
      var deadline, award := FieldOr(existing.value, "application_deadline", ""), FieldOr(existing.value, "award_date", "");
      r.form.applicationDeadline == (if deadline == "" then "" else BeforeT(deadline)) &&
      r.form.awardDate == (if award == "" then "" else BeforeT(award)) &&
      !Contains(r.form.applicationDeadline, "T") && !Contains(r.form.awardDate, "T")
  {
    match existing
    case None => Loaded(InitialForm, "", "")
    case Some(rec) =>
      var location := FieldOr(rec, "location", "");
      var split := SplitLocation(location);
      var deadline := FieldOr(rec, "application_deadline", "");
      var award := FieldOr(rec, "award_date", "");
      var form := Form(
        FieldOr(rec, "organization_name", ""),
        FieldOr(rec, "amount_currency", "USD"),
        FieldOr(rec, "amount_value", ""),
        FieldOr(rec, "contact_email", ""),
        location,
        Lower(FieldOr(rec, "organization_type", "normal")),
        FieldOr(rec, "application_link", ""),
        FieldOr(rec, "program", ""),
        FieldOr(rec, "notes", ""),
        Lower(FieldOr(rec, "status", "pending")),
        FieldOr(rec, "contact_tel", ""),
        if deadline != "" then BeforeT(deadline) else "",
        if award != "" then BeforeT(award) else "",
        documents.GetOr([]));
      Loaded(form, split.0, split.1)
  }

  /** A grant saved by the form, with its location combined from a country
      and a region and its deadline sent back as a timestamp, loads with
      that country, that region and the deadline's date. */
  lemma LoadShowsSaved(rec: GrantRecord, documents: Option<seq<nat>>, country: string, region: string,
                       d: Dates.Date, time: string)
    requires country != "" && region != "" && !Contains(country, LocationSeparator) && !EndsWith(country, " -")
    requires Dates.Valid(d)
    requires FieldOr(rec, "location", "") == Combine(country, region)
    requires FieldOr(rec, "application_deadline", "") == Dates.IsoDate(d) + "T" + time
    ensures var r := LoadGrant(Some(rec), documents);
      r.country == country && r.region == region && r.form.applicationDeadline == Dates.IsoDate(d)
  {
    SplitCombine(country, region);
    BeforeTExamples(d, time);
  }

  // ---------------------------------------------------------------- payloads

  /** A JSON request body: the text fields, `None` standing for null, and
      the required documents. */
  datatype Payload = Payload(fields: map<Key, Option<string>>, requiredDocuments: seq<nat>)

  function NullIfEmpty(s: string): (r: Option<string>)
    ensures r.None? <==> s == ""
    ensures r.Some? ==> r.value == s
  {
    if s == "" then None else Some(s)
  }

  /** The fields the update form sends as null when empty. */
  const NullableOnUpdate: set<Key> := {ApplicationLink, Notes, ApplicationDeadline, AwardDate}

  /** The fields the create form sends as null when empty. */
  const NullableOnCreate: set<Key> := {ApplicationLink, Program, Notes, ContactTel, ApplicationDeadline, AwardDate}

  /** The update form's body: the whole form, with an empty link, notes or
      date sent as null. */
  function UpdatePayload(f: Form): (p: Payload)
    ensures forall k: Key :: k in p.fields
    ensures p.requiredDocuments == f.requiredDocuments
    ensures forall k :: k in NullableOnUpdate ==> p.fields[k] == NullIfEmpty(FormField(f, k))
    ensures forall k: Key :: k !in NullableOnUpdate ==> p.fields[k] == Some(FormField(f, k))
  {
    Payload(map k: Key :: if k in NullableOnUpdate then NullIfEmpty(FormField(f, k)) else Some(FormField(f, k)),
            f.requiredDocuments)
  }

  /** The create form's body: an empty link, program, notes, phone or date
      is sent as null; status and documents pass through. */
  function CreatePayload(f: Form): (p: Payload)
    ensures forall k: Key :: k in p.fields
    ensures p.requiredDocuments == f.requiredDocuments
    ensures forall k :: k in NullableOnCreate ==> p.fields[k] == NullIfEmpty(FormField(f, k))
    ensures forall k: Key :: k !in NullableOnCreate ==> p.fields[k] == Some(FormField(f, k))
  {
    Payload(map k: Key :: if k in NullableOnCreate then NullIfEmpty(FormField(f, k)) else Some(FormField(f, k)),
            f.requiredDocuments)
  }

  /** The two bodies differ only in how an empty program or phone number is
      sent: as "" on update, as null on create. */
  lemma PayloadsDiffer(f: Form)
    ensures forall k: Key :: k != Program && k != ContactTel ==> UpdatePayload(f).fields[k] == CreatePayload(f).fields[k]
    ensures UpdatePayload(f).fields[Program] == Some(f.program)
    ensures CreatePayload(f).fields[Program] == (if f.program == "" then None else Some(f.program))
    ensures UpdatePayload(f).fields[ContactTel] == Some(f.contactTel)
    ensures CreatePayload(f).fields[ContactTel] == (if f.contactTel == "" then None else Some(f.contactTel))
  {
  }

  /** `handleSubmit` of the update form: a PUT to the grant's address with
      the update body, only for a valid form of an existing grant. */
  method SubmitUpdate(f: Form, country: string, region: string, grantId: Option<nat>, phoneValid: string -> bool)
    returns (request: Option<(nat, Payload)>)
    ensures request.Some? <==> UpdateFormValid(f, country, region, phoneValid) && grantId.Some?
    ensures request.Some? ==> request.value == (grantId.value, UpdatePayload(f))
  {
    var errors, ok := ValidateForm(f, country, region, phoneValid, false);
    if !ok || grantId.None? {
      return None;
    }
    return Some((grantId.value, UpdatePayload(f)));
  }

  /** `handleSubmit` of the create form: a POST of the create body, only for
      a valid form. */
  method SubmitCreate(f: Form, country: string, region: string, phoneValid: string -> bool)
    returns (request: Option<Payload>)
    ensures request.Some? <==> CreateFormValid(f, country, region, phoneValid)
    ensures request.Some? ==> request.value == CreatePayload(f)
  {
    var errors, ok := ValidateForm(f, country, region, phoneValid, true);
    if !ok {
      return None;
    }
    return Some(CreatePayload(f));
  }
}
