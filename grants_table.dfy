/** The display rules of the grants table: the status badge, the amount and
    program cells, the organisation initials, the "submitted by" cell and
    the select-all checkbox. */
module GrantsTable {
  import opened Common
  import opened Strings
  import opened Seqs
  import GrantForms

  // ---------------------------------------------------------------- status badge

  /** The badge colours of `getStatusColor`; `GrayBadge` is the default. */
  datatype Badge = YellowBadge | BlueBadge | GreenBadge | RedBadge | DarkGrayBadge | GrayBadge

  /** `getStatusColor`: the five grant statuses, case-insensitively; a
      missing or unknown status gets the default grey. */
  function StatusColor(status: Option<string>): (b: Badge)
    ensures status.None? ==> b == GrayBadge
    ensures status.Some? ==> (b == YellowBadge <==> Lower(status.value) == "pending")
    ensures status.Some? ==> (b == BlueBadge <==> Lower(status.value) == "applied")
    ensures status.Some? ==> (b == GreenBadge <==> Lower(status.value) == "approved")
    ensures status.Some? ==> (b == RedBadge <==> Lower(status.value) == "denied")
    ensures status.Some? ==> (b == DarkGrayBadge <==> Lower(status.value) == "expired")
  {
    match status
    case None => GrayBadge
    case Some(s) =>
      var k := Lower(s);
      if k == "pending" then YellowBadge
      else if k == "applied" then BlueBadge
      else if k == "approved" then GreenBadge
      else if k == "denied" then RedBadge
      else if k == "expired" then DarkGrayBadge
      else GrayBadge
  }

  /** The badge depends on the status only up to letter case. */
  lemma StatusColorIgnoresCase(s: string)
    ensures StatusColor(Some(s)) == StatusColor(Some(Lower(s)))
  {
    LowerIdempotent(s);
  }

  // ---------------------------------------------------------------- amount and program cells

  /** What the amount cell shows: 'N/A', the value formatted in a currency,
      or nothing because `Intl.NumberFormat` threw a RangeError on the
      currency code. */
  datatype AmountDisplay = NotAvailable | Formatted(value: string, currency: string) | Throws

  predicate IsAsciiLetter(c: char) {
    'a' <= c <= 'z' || 'A' <= c <= 'Z'
  }

  /** A currency code `Intl.NumberFormat` accepts: three ASCII letters, in
      either case. */
  predicate WellFormedCurrency(code: string) {
    |code| == 3 && forall i :: 0 <= i < 3 ==> IsAsciiLetter(code[i])
  }

  /** `currency || 'USD'`: a missing or empty code becomes USD. */
  function CurrencyOrUsd(currency: Option<string>): string {
    if currency.Some? && currency.value != "" then currency.value else "USD"
  }

  /** `formatCurrencyDisplay`: 'N/A' for a missing value or one `parseFloat`
      reads as NaN; otherwise the value in its currency, USD by default, the
      code shown in upper case; a code that is not three letters throws. */
  function CurrencyDisplay(value: Option<string>, currency: Option<string>): (d: AmountDisplay)
    ensures d.NotAvailable? <==> value.None? || GrantForms.ParseFloatSign(value.value).None?
    ensures d.Throws? <==> !d.NotAvailable? && !WellFormedCurrency(CurrencyOrUsd(currency))
    ensures d.Formatted? ==> d.value == value.value
    ensures d.Formatted? ==> Lower(d.currency) == Lower(CurrencyOrUsd(currency)) && Upper(d.currency) == d.currency
  {
    if value.None? || GrantForms.ParseFloatSign(value.value).None? then NotAvailable
    else
      var code := CurrencyOrUsd(currency);
      if !WellFormedCurrency(code) then Throws
      else
        UpperLowerThree(code);
        Formatted(value.value, Upper(code))
  }

  /** On three ASCII letters, upper-casing keeps the letters up to case and
      is idempotent. */
  lemma UpperLowerThree(code: string)
    requires WellFormedCurrency(code)
    ensures Lower(Upper(code)) == Lower(code) && Upper(Upper(code)) == Upper(code)
  {
    assert Upper(code) == [UpperChar(code[0]), UpperChar(code[1]), UpperChar(code[2])];
    assert Lower(code) == [LowerChar(code[0]), LowerChar(code[1]), LowerChar(code[2])];
  }

  /** Amounts the grant form accepts are shown as numbers when the currency
      is missing, empty or three letters, and break the cell otherwise. */
  lemma AcceptedAmountsShown(amount: string, currency: Option<string>)
    requires GrantForms.AmountOk(amount)
    ensures CurrencyDisplay(Some(amount), currency).Formatted? <==> WellFormedCurrency(CurrencyOrUsd(currency))
    ensures CurrencyDisplay(Some(amount), currency).Throws? <==> !WellFormedCurrency(CurrencyOrUsd(currency))
  {
  }

  /** A whole amount without a currency is shown in US dollars; text that is
      no number is not; a currency of four characters, which the grant form
      accepts (at most ten), breaks the cell. */
  lemma WholeAmountInDollars(n: nat)
    ensures CurrencyDisplay(Some(NatToString(n)), None) == Formatted(NatToString(n), "USD")
    ensures CurrencyDisplay(Some(NatToString(n)), Some("kes")) == Formatted(NatToString(n), "KES")
    ensures CurrencyDisplay(Some(NatToString(n)), Some("Ksh.")) == Throws
    ensures CurrencyDisplay(Some("abc"), None) == NotAvailable
  {
    assert Upper("USD") == "USD" by {
      UpperThree("USD");
    }
    WholeAmountShownIn(n, None);
    assert Upper("kes") == "KES" by {
      UpperThree("kes");
    }
    WholeAmountShownIn(n, Some("kes"));
    GrantForms.WholeAmountAccepted(n);
    assert !WellFormedCurrency("Ksh.");
    GrantForms.NonNumericAmountsRejected();
  }

  /** A whole amount in a currency of three letters is shown in that
      currency, upper-cased. */
  lemma WholeAmountShownIn(n: nat, currency: Option<string>)
    requires WellFormedCurrency(CurrencyOrUsd(currency))
    ensures CurrencyDisplay(Some(NatToString(n)), currency) == Formatted(NatToString(n), Upper(CurrencyOrUsd(currency)))
  {
    GrantForms.WholeAmountAccepted(n);
  }

  lemma UpperThree(code: string)
    requires |code| == 3
    ensures Upper(code) == [UpperChar(code[0]), UpperChar(code[1]), UpperChar(code[2])]
  {
  }

  /** The grant form accepts any currency of at most ten characters, so it
      stores codes the table cannot show: "Ksh." passes the form and throws
      in the amount cell. */
  lemma FormAcceptsUnshownCurrency(f: GrantForms.Form, n: nat)
    requires f.amountCurrency == "Ksh."
    ensures GrantForms.CurrencyMessage(f, true).None?
    ensures CurrencyDisplay(Some(NatToString(n)), Some(f.amountCurrency)) == Throws
  {
    assert Trim("Ksh.") == "Ksh." by {
      assert !IsSpace("Ksh."[0]) && !IsSpace("Ksh."[3]);
    }
    WholeAmountInDollars(n);
  }

  const MethodWrapperMarker := "<method-wrapper"

  /** The program cell: 'N/A' for a missing or empty name and for one
      holding a leaked Python method representation. */
  function ProgramDisplay(programName: Option<string>): (r: string)
    ensures programName.Some? && programName.value != "" && !Contains(programName.value, MethodWrapperMarker) ==>
      r == programName.value
    ensures programName.None? || programName.value == "" || Contains(programName.value, MethodWrapperMarker) ==>
      r == "N/A"
  {
    if programName.Some? && programName.value != "" && !Contains(programName.value, MethodWrapperMarker)
    then programName.value
    else "N/A"
  }

  /** Any text with the marker in it shows as 'N/A'. */
  lemma LeakedMethodHidden(before: string, after: string)
    ensures ProgramDisplay(Some(before + MethodWrapperMarker + after)) == "N/A"
  {
    var s := before + MethodWrapperMarker + after;
    assert s[|before|..|before| + |MethodWrapperMarker|] == MethodWrapperMarker;
    assert OccursAt(s, MethodWrapperMarker, |before|);
  }

  // ---------------------------------------------------------------- initials

  predicate NonEmpty(w: string) {
    w != ""
  }

  predicate NoSpace(w: string) {
    forall i :: 0 <= i < |w| ==> w[i] != ' '
  }

  /** `name.split(' ').filter(Boolean)`. */
  function Words(name: string): (ws: seq<string>)
    ensures forall k :: 0 <= k < |ws| ==> ws[k] != ""
  {
    Filter(Split(name, " "), NonEmpty)
  }

  /** `getInitials`: 'N/A' without words, the first two characters of a
      single word, else the first letters of the first two words; all
      upper-cased. */
  function Initials(name: Option<string>): (r: string)
    ensures name.None? || name == Some("") ==> r == "N/A"
    ensures |r| <= 3
    ensures name.Some? && name.value != "" ==>
      var ws := Words(name.value);
      (|ws| == 0 ==> r == "N/A") &&
      (|ws| == 1 ==> |r| == (if |ws[0]| < 2 then |ws[0]| else 2) &&
                     forall i :: 0 <= i < |r| ==> r[i] == UpperChar(ws[0][i])) &&
      (|ws| >= 2 ==> r == [UpperChar(ws[0][0]), UpperChar(ws[1][0])])
    ensures forall i :: 0 <= i < |r| ==> !('a' <= r[i] <= 'z')
  {
    if name.None? || name.value == "" then "N/A"
    else
      var ws := Words(name.value);
      if |ws| == 0 then "N/A"
      else if |ws| == 1 then Upper(ws[0][..if |ws[0]| < 2 then |ws[0]| else 2])
      else Upper([ws[0][0], ws[1][0]])
  }

  /** The words of a name split at its single space. */
  lemma TwoWordSplit(first: string, second: string)
    requires NoSpace(first) && NoSpace(second)
    ensures Split(first + " " + second, " ") == [first, second]
  {
    GrantForms.FirstAfterPrefix(first, ' ', second);
    var s := first + [' '] + second;
    assert first + " " + second == s;
    assert s[..|first|] == first;
    assert s[|first| + 1..] == second;
    GrantForms.AbsentCharNotFound(second, ' ');
  }

  /** "Ada Lovelace" gives "AL": two words give their upper-cased first
      letters. */
  lemma TwoWordInitials(first: string, second: string)
    requires NoSpace(first) && NoSpace(second) && first != "" && second != ""
    ensures Initials(Some(first + " " + second)) == [UpperChar(first[0]), UpperChar(second[0])]
  {
    TwoWordSplit(first, second);
    assert [first, second][1..] == [second];
    assert Filter([second], NonEmpty) == [second] by {
      assert [second][1..] == [];
    }
    assert Words(first + " " + second) == [first, second];
  }

  /** A single word gives its first two characters, upper-cased. */
  lemma OneWordInitials(word: string)
    requires NoSpace(word) && |word| >= 2
    ensures Initials(Some(word)) == [UpperChar(word[0]), UpperChar(word[1])]
  {
    GrantForms.AbsentCharNotFound(word, ' ');
    assert Words(word) == [word];
  }

  /** The pieces of a string of spaces split at spaces are all empty. */
  lemma {:induction false} SpacesSplitEmpty(s: string)
    requires forall i :: 0 <= i < |s| ==> s[i] == ' '
    ensures forall k :: 0 <= k < |Split(s, " ")| ==> Split(s, " ")[k] == ""
    decreases |s|
  {
    if s != [] {
      assert s[..1] == " ";
      assert IndexOf(s, " ") == Some(0);
      SpacesSplitEmpty(s[1..]);
      assert Split(s, " ") == [""] + Split(s[1..], " ");
    }
  }

  /** A blank name gives 'N/A'. */
  lemma BlankNameInitials(name: string)
    requires forall i :: 0 <= i < |name| ==> name[i] == ' '
    ensures Initials(Some(name)) == "N/A"
  {
    SpacesSplitEmpty(name);
    assert forall x :: x in Split(name, " ") ==> x == "";
  }

  // ---------------------------------------------------------------- submitted by

  /** How a user renders as text (`User.__str__`): the full name, " - ", the
      role. */
  function UserLabel(fullName: string, role: string): string {
    fullName + " - " + role
  }

  /** The "submitted by" cell: a name (or 'N/A') and a role (or ''). */
  datatype Submitter = Submitter(name: string, role: string)

  /** The cell from the pieces of a split label. */
  function SubmitterOf(parts: seq<string>): (r: Submitter)
    requires |parts| >= 1
    ensures r.name == (if Trim(parts[0]) == "" then "N/A" else Trim(parts[0]))
    ensures r.role == (if |parts| >= 2 then Trim(parts[1]) else "")
  {
    Submitter(if Trim(parts[0]) == "" then "N/A" else Trim(parts[0]), if |parts| >= 2 then Trim(parts[1]) else "")
  }

  const SubmitterSeparatorAsWritten := "\t - "

  /** `parseSubmittedBy` as written: it splits on a tab followed by " - ". */
  function ParseSubmittedByAsWritten(text: Option<string>): (r: Submitter)
    ensures text.None? || text == Some("") ==> r == Submitter("N/A", "")
  {
    if text.None? || text.value == "" then Submitter("N/A", "")
    else SubmitterOf(Split(text.value, SubmitterSeparatorAsWritten))
  }

  /** A user's text has no tab, so the cell as written shows the whole label
      as the name and never a role. */
  lemma SubmittedByAsWrittenKeepsRole(fullName: string, role: string)
    requires forall i :: 0 <= i < |fullName| ==> fullName[i] != '\t'
    requires forall i :: 0 <= i < |role| ==> role[i] != '\t'
    requires Trim(UserLabel(fullName, role)) != ""
    ensures ParseSubmittedByAsWritten(Some(UserLabel(fullName, role))) == Submitter(Trim(UserLabel(fullName, role)), "")
  {
    var s := UserLabel(fullName, role);
    forall j: nat
      ensures !OccursAt(s, SubmitterSeparatorAsWritten, j)
    {
      if j + 4 <= |s| {
        assert s[j..j + 4][0] == s[j];
      }
    }
    assert IndexOf(s, SubmitterSeparatorAsWritten).None?;
  }

  const SubmitterSeparator := " - "

  /** `parseSubmittedBy`, splitting on the separator users are rendered
      with. */
  function ParseSubmittedBy(text: Option<string>): (r: Submitter)
    ensures text.None? || text == Some("") ==> r == Submitter("N/A", "")
    ensures r.name != ""
  {
    if text.None? || text.value == "" then Submitter("N/A", "")
    else SubmitterOf(Split(text.value, SubmitterSeparator))
  }

  predicate NoDash(s: string) {
    forall i :: 0 <= i < |s| ==> s[i] != '-'
  }

  lemma DashFreeNoSeparator(s: string)
    requires NoDash(s)
    ensures IndexOf(s, SubmitterSeparator).None?
  {
    forall j: nat
      ensures !OccursAt(s, SubmitterSeparator, j)
    {
      if j + 3 <= |s| {
        assert s[j..j + 3][1] == s[j + 1];
      }
    }
  }

  /** A user with a dash-free name and role reads back as that name and
      role. */
  lemma ParseUserLabel(fullName: string, role: string)
    requires NoDash(fullName) && NoDash(role) && Trim(fullName) != ""
    ensures ParseSubmittedBy(Some(UserLabel(fullName, role))) == Submitter(Trim(fullName), Trim(role))
  {
    var s := UserLabel(fullName, role);
    forall j: nat | j < |fullName|
      ensures !OccursAt(s, SubmitterSeparator, j)
    {
      if j + 3 <= |s| {
        assert s[j..j + 3][1] == s[j + 1];
      }
    }
    assert s[|fullName|..|fullName| + 3] == SubmitterSeparator;
    assert OccursAt(s, SubmitterSeparator, |fullName|);
    assert IndexOf(s, SubmitterSeparator) == Some(|fullName|);
    assert s[..|fullName|] == fullName;
    assert s[|fullName| + 3..] == role;
    DashFreeNoSeparator(role);
    assert Split(role, SubmitterSeparator) == [role];
    assert Split(s, SubmitterSeparator) == [fullName, role];
  }

  // ---------------------------------------------------------------- select all

  /** The select-all checkbox: checked when the page has rows and as many
      grants are selected as the page shows. */
  predicate SelectAllChecked(page: seq<nat>, selected: seq<nat>) {
    |page| > 0 && |selected| == |page|
  }

  predicate Distinct(s: seq<nat>) {
    forall i, j :: 0 <= i < j < |s| ==> s[i] != s[j]
  }

  function Elements(s: seq<nat>): set<nat> {
    set x | x in s
  }

  lemma {:induction false} DistinctCard(s: seq<nat>)
    requires Distinct(s)
    ensures |Elements(s)| == |s|
  {
    if s != [] {
      var rest := s[1..];
      assert forall i :: 0 <= i < |rest| ==> rest[i] == s[i + 1];
      assert Distinct(rest);
      DistinctCard(rest);
      assert s[0] !in rest;
      var A := Elements(rest);
      assert Elements(s) == A + {s[0]};
      assert s[0] !in A;
      assert |A + {s[0]}| == |A| + 1;
    }
  }

  /** What the box is meant to say: the page has rows and every one of them
      is selected. */
  predicate EveryRowSelected(page: seq<nat>, selected: seq<nat>) {
    |page| > 0 && forall x :: x in page ==> x in selected
  }

  /** For distinct ids, the count test agrees with "every row is selected"
      whenever the selection lies within the page; and when every row is
      selected, the box is checked only if nothing off the page is. */
  lemma SelectAllMeansEveryRow(page: seq<nat>, selected: seq<nat>)
    requires Distinct(page) && Distinct(selected)
    ensures (forall x :: x in selected ==> x in page) ==>
      (SelectAllChecked(page, selected) <==> EveryRowSelected(page, selected))
    ensures EveryRowSelected(page, selected) ==>
      (SelectAllChecked(page, selected) <==> forall x :: x in selected ==> x in page)
  {
    var P := Elements(page);
    var S := Elements(selected);
    DistinctCard(page);
    DistinctCard(selected);
    if S <= P && |selected| == |page| {
      var T := P - S;
      assert P == S + T && S * T == {};
      assert |P| == |S| + |T|;
      assert T == {};
      forall x | x in page ensures x in selected {
        assert x in P;
      }
    }
    if EveryRowSelected(page, selected) {
      assert P <= S;
      if S <= P {
        assert P == S;
      }
      if |selected| == |page| {
        var T := S - P;
        assert S == P + T && P * T == {};
        assert |S| == |P| + |T|;
        assert T == {};
        forall x | x in selected ensures x in page {
          assert x in S;
        }
      }
    }
  }

  /** The selection survives a change of page, since only toggling and the
      box itself change it; a selection of as many grants from another page
      then checks the box while no row of this page is selected. */
  lemma SelectAllCheckedOffPage(page: seq<nat>, selected: seq<nat>)
    requires |page| > 0 && |selected| == |page|
    requires forall x :: x in selected ==> x !in page
    ensures SelectAllChecked(page, selected) && !EveryRowSelected(page, selected)
    ensures forall x :: x in page ==> x !in selected
  {
    assert page[0] in page;
  }

  /** Ten grants selected on the first page, with ids 1 to 10, leave the box
      of a second page with ids 11 to 20 checked. */
  lemma SecondPageShowsAllSelected()
    ensures var first := seq(10, i => i + 1);
      var second := seq(10, i => i + 11);
      SelectAllChecked(second, first) && forall x :: x in second ==> x !in first
  {
    var first: seq<nat> := seq(10, i => i + 1);
    var second: seq<nat> := seq(10, i => i + 11);
    forall x | x in first ensures x !in second {
      var i :| 0 <= i < 10 && first[i] == x;
    }
    SelectAllCheckedOffPage(second, first);
  }
}
