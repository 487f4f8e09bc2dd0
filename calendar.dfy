/** The dashboard's grants calendar: the month's deadline and award entries
    filed by date, the month grid, month navigation, the dominant status of
    a day, the week containing a day, and the selected week's list. */
module GrantsCalendar {
  import opened Common
  import opened Strings
  import opened Dates
  import opened Seqs

  /** A grant of the month listing; "" stands for a missing date. */
  datatype MonthGrant = MonthGrant(id: nat, status: string, applicationDeadline: string, awardDate: string)

  /** The two lists of the month endpoint, either of which may be absent. */
  datatype MonthData = MonthData(withDeadline: Option<seq<MonthGrant>>, withAward: Option<seq<MonthGrant>>)

  /** The entries of `statusConfig`. */
  datatype Style = PendingStyle | AppliedStyle | ApprovedStyle | DeniedStyle | ExpiredStyle | AwardStyle

  /** The style for a status key, case-insensitively; an unknown key falls
      back to the pending style. */
  function StyleFor(statusKey: string): (style: Style)
    ensures Lower(statusKey) == "pending" ==> style == PendingStyle
    ensures Lower(statusKey) == "applied" ==> style == AppliedStyle
    ensures Lower(statusKey) == "approved" ==> style == ApprovedStyle
    ensures Lower(statusKey) == "denied" ==> style == DeniedStyle
    ensures Lower(statusKey) == "expired" ==> style == ExpiredStyle
    ensures Lower(statusKey) == "award" ==> style == AwardStyle
    ensures Lower(statusKey) !in {"applied", "approved", "denied", "expired", "award"} ==> style == PendingStyle
  {
    var k := Lower(statusKey);
    if k == "applied" then AppliedStyle
    else if k == "approved" then ApprovedStyle
    else if k == "denied" then DeniedStyle
    else if k == "expired" then ExpiredStyle
    else if k == "award" then AwardStyle
    else PendingStyle
  }

  datatype EntryKind = DeadlineEntry | AwardEntry

  /** A grant shown on a day, as a deadline or as an award. */
  datatype Entry = Entry(grant: MonthGrant, kind: EntryKind, style: Style)

  /** The date an entry is filed under. */
  function EntryDate(e: Entry): string {
    if e.kind == DeadlineEntry then e.grant.applicationDeadline else e.grant.awardDate
  }

  /** An entry as `grantsByDate` builds it: a deadline carries its grant's
      status style, an award the award style. */
  predicate WellFormed(e: Entry) {
    e.style == (if e.kind == AwardEntry then AwardStyle else StyleFor(e.grant.status))
  }

  function DeadlineOf(g: MonthGrant): Entry {
    Entry(g, DeadlineEntry, StyleFor(g.status))
  }

  /** An award entry carries the style of the key "award" (see
      `AwardKeyStyle`). */
  function AwardOf(g: MonthGrant): Entry {
    Entry(g, AwardEntry, AwardStyle)
  }

  /** The key "award" is styled as an award. */
  lemma AwardKeyStyle()
    ensures StyleFor("award") == AwardStyle
  {
    assert Lower("award") == "award";
  }

  predicate HasDeadline(g: MonthGrant) {
    g.applicationDeadline != ""
  }

  predicate HasAward(g: MonthGrant) {
    g.awardDate != ""
  }

  // ---------------------------------------------------------------- grantsByDate

  /** The deadline entries of the grants that have a deadline, in order. */
  function DeadlineEntries(gs: seq<MonthGrant>): (r: seq<Entry>)
    ensures forall e :: e in r <==> exists g :: g in gs && HasDeadline(g) && e == DeadlineOf(g)
    ensures |r| == |Filter(gs, HasDeadline)|
  {
    if gs == [] then []
    else
      var init, g := gs[..|gs| - 1], gs[|gs| - 1];
      assert gs == init + [g];
      FilterAppend(init, [g], HasDeadline);
      if HasDeadline(g) then DeadlineEntries(init) + [DeadlineOf(g)] else DeadlineEntries(init)
  }

  /** The award entries of the grants that have an award date, in order. */
  function AwardEntries(gs: seq<MonthGrant>): (r: seq<Entry>)
    ensures forall e :: e in r <==> exists g :: g in gs && HasAward(g) && e == AwardOf(g)
    ensures |r| == |Filter(gs, HasAward)|
  {
    if gs == [] then []
    else
      var init, g := gs[..|gs| - 1], gs[|gs| - 1];
      assert gs == init + [g];
      FilterAppend(init, [g], HasAward);
      if HasAward(g) then AwardEntries(init) + [AwardOf(g)] else AwardEntries(init)
  }

  /** Every entry of the month: the deadlines, then the awards. */
  function MonthEntries(data: Option<MonthData>): seq<Entry> {
    match data
    case None => []
    case Some(d) => DeadlineEntries(d.withDeadline.GetOr([])) + AwardEntries(d.withAward.GetOr([]))
  }

  /** The entries filed under date `k`. */
  function OnDate(k: string): Entry -> bool {
    e => EntryDate(e) == k
  }

  /** Entries grouped by their date, each group in the original order. */
  function Group(es: seq<Entry>): map<string, seq<Entry>> {
    if es == [] then map[]
    else
      var m := Group(es[..|es| - 1]);
      var e := es[|es| - 1];
      var k := EntryDate(e);
      m[k := (if k in m then m[k] else []) + [e]]
  }

  /** A date is a key of the grouping iff some entry has it, and its group
      is exactly the entries with that date, in order. */
  lemma {:induction false} GroupSpec(es: seq<Entry>)
    ensures forall k :: k in Group(es) <==> Filter(es, OnDate(k)) != []
    ensures forall k :: k in Group(es) ==> Group(es)[k] == Filter(es, OnDate(k))
  {
    if es != [] {
      var init, e := es[..|es| - 1], es[|es| - 1];
      assert es == init + [e];
      GroupSpec(init);
      forall k
        ensures Filter(es, OnDate(k)) == Filter(init, OnDate(k)) + (if EntryDate(e) == k then [e] else [])
      {
        FilterAppend(init, [e], OnDate(k));
      }
    }
  }

  lemma EntriesWellFormed(data: Option<MonthData>)
    ensures forall e :: e in MonthEntries(data) ==> WellFormed(e)
  {
  }

  /** Grouping one more entry appends it to its date's group. */
  lemma GroupSnoc(es: seq<Entry>, e: Entry)
    ensures var m, k := Group(es), EntryDate(e);
      Group(es + [e]) == m[k := (if k in m then m[k] else []) + [e]]
  {
    assert (es + [e])[..|es|] == es;
  }

  /** One more grant adds its deadline entry, if it has a deadline. */
  lemma DeadlineSnoc(gs: seq<MonthGrant>, g: MonthGrant)
    ensures DeadlineEntries(gs + [g]) == DeadlineEntries(gs) + (if HasDeadline(g) then [DeadlineOf(g)] else [])
  {
    assert (gs + [g])[..|gs|] == gs;
  }

  /** One more grant adds its award entry, if it has an award date. */
  lemma AwardSnoc(gs: seq<MonthGrant>, g: MonthGrant)
    ensures AwardEntries(gs + [g]) == AwardEntries(gs) + (if HasAward(g) then [AwardOf(g)] else [])
  {
    assert (gs + [g])[..|gs|] == gs;
  }

  /** Files one entry under its date: `dateMap[dateKey].push(entry)`,
      creating the group when the date is new. */
  method FileEntry(dateMap: map<string, seq<Entry>>, ghost filed: seq<Entry>, e: Entry)
    returns (r: map<string, seq<Entry>>)
    requires dateMap == Group(filed)
    ensures r == Group(filed + [e])
  {
    var k := EntryDate(e);
    GroupSnoc(filed, e);
    r := dateMap[k := (if k in dateMap then dateMap[k] else []) + [e]];
  }

  /** Files each dated deadline under its date. */
  method FileDeadlines(deadlines: seq<MonthGrant>) returns (dateMap: map<string, seq<Entry>>)
    ensures dateMap == Group(DeadlineEntries(deadlines))
  {
    dateMap := map[];
    for i := 0 to |deadlines|
      invariant dateMap == Group(DeadlineEntries(deadlines[..i]))
    {
      var g := deadlines[i];
      TakeSnoc(deadlines, i);
      DeadlineSnoc(deadlines[..i], g);
      if g.applicationDeadline != "" {
        dateMap := FileEntry(dateMap, DeadlineEntries(deadlines[..i]), DeadlineOf(g));
      }
    }
    assert deadlines[..|deadlines|] == deadlines;
  }

  /** Files one more award, if it is dated, after `filed` and the awards
      `gs` before it. */
  method FileAward(dateMap: map<string, seq<Entry>>, ghost filed: seq<Entry>, ghost gs: seq<MonthGrant>, g: MonthGrant)
    returns (r: map<string, seq<Entry>>)
    requires dateMap == Group(filed + AwardEntries(gs))
    ensures r == Group(filed + AwardEntries(gs + [g]))
  {
    AwardSnoc(gs, g);
    r := dateMap;
    if g.awardDate != "" {
      ghost var done := AwardEntries(gs);
      assert filed + (done + [AwardOf(g)]) == (filed + done) + [AwardOf(g)];
      r := FileEntry(dateMap, filed + done, AwardOf(g));
    }
  }

  /** Adds each dated award to the grouping of `filed`. */
  method FileAwards(filed: seq<Entry>, start: map<string, seq<Entry>>, awards: seq<MonthGrant>)
    returns (dateMap: map<string, seq<Entry>>)
    requires start == Group(filed)
    ensures dateMap == Group(filed + AwardEntries(awards))
  {
    dateMap := start;
    assert filed + AwardEntries(awards[..0]) == filed;
    for j := 0 to |awards|
      invariant dateMap == Group(filed + AwardEntries(awards[..j]))
    {
      TakeSnoc(awards, j);
      dateMap := FileAward(dateMap, filed, awards[..j], awards[j]);
    }
    assert awards[..|awards|] == awards;
  }

  /** `grantsByDate`: files every dated deadline and then every dated award
      under its date. */
  method GrantsByDate(data: Option<MonthData>) returns (dateMap: map<string, seq<Entry>>)
    ensures dateMap == Group(MonthEntries(data))
  {
    if data.None? {
      return map[];
    }
    var deadlines := data.value.withDeadline.GetOr([]);
    var filed := FileDeadlines(deadlines);
    dateMap := FileAwards(DeadlineEntries(deadlines), filed, data.value.withAward.GetOr([]));
  }

  // ---------------------------------------------------------------- the month grid

  /** `getCalendarDays`: one empty cell per weekday before the first of the
      month, then the days 1 to the month's length. */
  method CalendarDays(current: ValidDate) returns (days: seq<Option<nat>>)
    ensures |days| == Weekday(Date(current.year, current.month, 1)) + DaysInMonth(current.year, current.month)
    ensures forall i :: 0 <= i < Weekday(Date(current.year, current.month, 1)) ==> days[i].None?
    ensures forall d :: 1 <= d <= DaysInMonth(current.year, current.month) ==>
      days[Weekday(Date(current.year, current.month, 1)) + d - 1] == Some(d)
  {
    var lead := Weekday(Date(current.year, current.month, 1));
    var length := DaysInMonth(current.year, current.month);
    days := [];
    for i := 0 to lead
      invariant |days| == i
      invariant forall k :: 0 <= k < i ==> days[k].None?
    {
      days := days + [None];
    }
    for day := 1 to length + 1
      invariant |days| == lead + day - 1
      invariant forall k :: 0 <= k < lead ==> days[k].None?
      invariant forall d :: 1 <= d < day ==> days[lead + d - 1] == Some(d)
    {
      days := days + [Some(day)];
    }
  }

  /** Each day of the grid sits in its weekday's column. */
  lemma ColumnIsWeekday(year: int, month: int, d: int)
    requires Valid(Date(year, month, 1)) && 1 <= d <= DaysInMonth(year, month)
    ensures (Weekday(Date(year, month, 1)) + d - 1) % 7 == Weekday(Date(year, month, d))
  {
    var first := DayIndex(Date(year, month, 1)) + 1;
    assert DayIndex(Date(year, month, d)) + 1 == first + (d - 1);
    ModSeven(first, d - 1);
  }

  /** Adding after reducing modulo 7 is adding before. */
  lemma ModSeven(a: nat, b: nat)
    ensures (a % 7 + b) % 7 == (a + b) % 7
  {
    var q := a / 7;
    assert a + b == 7 * q + (a % 7 + b);
  }

  // ---------------------------------------------------------------- navigation

  /** Months since the start of year 0. */
  function MonthCount(d: Date): int {
    d.year * 12 + d.month - 1
  }

  /** `navigateMonth`'s new date: the first of the month `direction` months
      away. JavaScript normalises the shifted month into the year. */
  function ShiftMonth(d: ValidDate, direction: int): (r: ValidDate)
    requires MonthCount(d) + direction >= 12
    ensures r.day == 1 && MonthCount(r) == MonthCount(d) + direction
  {
    var m := MonthCount(d) + direction;
    Date(m / 12, m % 12 + 1, 1)
  }

  /** Going forward and back again lands on the first of the original
      month. */
  lemma ShiftBack(d: ValidDate, direction: int)
    requires MonthCount(d) + direction >= 12 && MonthCount(d) >= 12
    ensures ShiftMonth(ShiftMonth(d, direction), -direction) == d.(day := 1)
  {
  }

  /** What the calendar shows: the current month and the selected week. */
  datatype View = View(currentDate: ValidDate, selectedWeekStart: Option<ValidDate>)

  /** `navigateMonth`: moves to the first of another month and clears the
      selected week. */
  function NavigateMonth(v: View, direction: int): (r: View)
    requires MonthCount(v.currentDate) + direction >= 12
    ensures r.selectedWeekStart.None?
    ensures r.currentDate.day == 1 && MonthCount(r.currentDate) == MonthCount(v.currentDate) + direction
  {
    View(ShiftMonth(v.currentDate, direction), None)
  }

  // ---------------------------------------------------------------- one day

  /** The key `getGrantsForDate` looks up: the year as written, the month
      and day zero-padded to two digits. */
  function DayKey(year: nat, month: nat, day: nat): string {
    NatToString(year) + "-" + ZeroPad(month, 2) + "-" + ZeroPad(day, 2)
  }

  lemma {:induction false} NatToStringAtLeast(n: nat, k: nat)
    requires n >= Pow10(k)
    ensures |NatToString(n)| >= k + 1
  {
    if k > 0 {
      Pow10Positive(k - 1);
      NatToStringAtLeast(n / 10, k - 1);
    }
  }

  lemma Pow10Positive(k: nat)
    ensures Pow10(k) >= 1
  {
  }

  /** For four-digit years the key is the date's ISO text, the form the
      entries are filed under. */
  lemma DayKeyIsIsoDate(d: Date)
    requires Valid(d) && 1000 <= d.year
    ensures DayKey(d.year, d.month, d.day) == IsoDate(d)
  {
    assert Pow10(3) == 1000;
    NatToStringAtLeast(d.year, 3);
  }

  /** `getGrantsForDate`: no entries for an empty cell, otherwise those filed
      under the day's key. */
  function GrantsForDate(byDate: map<string, seq<Entry>>, current: Date, day: Option<nat>): (r: seq<Entry>)
    requires current.year >= 0 && current.month >= 0
    ensures day.None? || day == Some(0) ==> r == []
    ensures day.Some? && day.value > 0 && DayKey(current.year, current.month, day.value) !in byDate ==> r == []
    ensures day.Some? && day.value > 0 && DayKey(current.year, current.month, day.value) in byDate ==>
      r == byDate[DayKey(current.year, current.month, day.value)]
  {
    if day.None? || day.value == 0 then []
    else
      var k := DayKey(current.year, current.month, day.value);
      if k in byDate then byDate[k] else []
  }

  /** Looking a day up in the filed month gives exactly that day's entries,
      in order. */
  lemma GrantsForDateFiled(data: Option<MonthData>, d: Date)
    requires Valid(d) && 1000 <= d.year
    ensures GrantsForDate(Group(MonthEntries(data)), d, Some(d.day)) == Filter(MonthEntries(data), OnDate(IsoDate(d)))
  {
    DayKeyIsIsoDate(d);
    GroupSpec(MonthEntries(data));
  }

  // ---------------------------------------------------------------- dominant status

  const Priorities: seq<string> := ["award", "approved", "applied", "pending", "denied", "expired"]

  /** The matching test of `getDominantStatus`'s `find`. */
  predicate MatchesPriority(e: Entry, priority: string) {
    (e.kind == AwardEntry && priority == "award") || e.grant.status == priority
  }

  /** `Array.prototype.find`: the first entry matching `priority`. */
  function FindMatch(es: seq<Entry>, priority: string): (r: Option<Entry>)
    ensures r.Some? ==> r.value in es && MatchesPriority(r.value, priority)
    ensures r.None? <==> forall e :: e in es ==> !MatchesPriority(e, priority)
  {
    if es == [] then None
    else if MatchesPriority(es[0], priority) then Some(es[0])
    else FindMatch(es[1..], priority)
  }

  /** The style chosen by the first of `ps` that some entry matches, or the
      first entry's style when none does. */
  function Dominant(es: seq<Entry>, ps: seq<string>): Style
    requires es != []
  {
    if ps == [] then es[0].style
    else match FindMatch(es, ps[0])
      case Some(e) => e.style
      case None => Dominant(es, ps[1..])
  }

  /** `getDominantStatus`: nothing for an empty cell or a day without
      entries, else the style of the first entry matching the highest
      priority that any entry matches. */
  method DominantStatus(byDate: map<string, seq<Entry>>, current: Date, day: Option<nat>) returns (style: Option<Style>)
    requires current.year >= 0 && current.month >= 0
    ensures GrantsForDate(byDate, current, day) == [] ==> style.None?
    ensures GrantsForDate(byDate, current, day) != [] ==> style == Some(Dominant(GrantsForDate(byDate, current, day), Priorities))
  {
    var es := GrantsForDate(byDate, current, day);
    if es == [] {
      return None;
    }
    for i := 0 to |Priorities|
      invariant Dominant(es, Priorities) == Dominant(es, Priorities[i..])
    {
      assert Priorities[i..][1..] == Priorities[i + 1..];
      var found := FindMatch(es, Priorities[i]);
      if found.Some? {
        return Some(found.value.style);
      }
    }
    return Some(es[0].style);
  }

  /** A day with an award shows the award style. */
  lemma AwardWins(es: seq<Entry>)
    requires forall e :: e in es ==> WellFormed(e)
    requires exists e :: e in es && e.kind == AwardEntry
    ensures Dominant(es, Priorities) == AwardStyle
  {
    var e :| e in es && e.kind == AwardEntry;
    assert MatchesPriority(e, Priorities[0]);
    var found := FindMatch(es, Priorities[0]);
    assert found.Some?;
    assert Lower("award") == "award";
  }

  /** Without awards, an approved grant's deadline decides the day. */
  lemma ApprovedNext(es: seq<Entry>)
    requires forall e :: e in es ==> WellFormed(e) && e.kind == DeadlineEntry && e.grant.status != "award"
    requires exists e :: e in es && e.grant.status == "approved"
    ensures Dominant(es, Priorities) == ApprovedStyle
  {
    var e :| e in es && e.grant.status == "approved";
    assert FindMatch(es, Priorities[0]).None?;
    assert Priorities[1..][0] == "approved";
    assert MatchesPriority(e, Priorities[1..][0]);
    assert Lower("approved") == "approved";
  }

  // ---------------------------------------------------------------- the week

  /** `getWeekStartDate`: the Sunday on or before `d`. */
  function WeekStart(d: ValidDate): (r: ValidDate)
    requires Weekday(d) <= DayIndex(d)
    ensures Weekday(r) == 0
    ensures DayIndex(r) <= DayIndex(d) <= DayIndex(r) + 6
  {
    var w := Weekday(d);
    var r := SubDays(d, w);
    DropRemainder(DayIndex(d) + 1);
    assert DayIndex(r) + 1 == DayIndex(d) + 1 - (DayIndex(d) + 1) % 7;
    r
  }

  lemma DropRemainder(x: nat)
    ensures x >= x % 7 && (x - x % 7) % 7 == 0
  {
    var q := x / 7;
    assert x - x % 7 == 7 * q;
  }

  /** The entries filed under the `n` days from `start`, day by day. */
  function WeekEntries(byDate: map<string, seq<Entry>>, start: ValidDate, n: nat): seq<Entry> {
    if n == 0 then []
    else
      var k := IsoDate(AddDays(start, n - 1));
      WeekEntries(byDate, start, n - 1) + (if k in byDate then byDate[k] else [])
  }

  /** Entry `e` is filed under day `i` of the week from `start`. */
  predicate OnWeekDay(byDate: map<string, seq<Entry>>, start: ValidDate, i: nat, e: Entry) {
    var k := IsoDate(AddDays(start, i));
    k in byDate && e in byDate[k]
  }

  predicate InFirstDays(byDate: map<string, seq<Entry>>, start: ValidDate, n: nat, e: Entry) {
    exists i: nat :: i < n && OnWeekDay(byDate, start, i, e)
  }

  /** The week's entries are exactly those filed under one of its days. */
  lemma {:induction false} WeekEntriesSpec(byDate: map<string, seq<Entry>>, start: ValidDate, n: nat)
    ensures forall e :: e in WeekEntries(byDate, start, n) <==> InFirstDays(byDate, start, n, e)
  {
    if n > 0 {
      WeekEntriesSpec(byDate, start, n - 1);
      forall e | InFirstDays(byDate, start, n, e)
        ensures e in WeekEntries(byDate, start, n)
      {
        var i: nat :| i < n && OnWeekDay(byDate, start, i, e);
        if i < n - 1 {
          assert InFirstDays(byDate, start, n - 1, e);
        }
      }
      forall e | e in WeekEntries(byDate, start, n)
        ensures InFirstDays(byDate, start, n, e)
      {
        if e in WeekEntries(byDate, start, n - 1) {
          var i: nat :| i < n - 1 && OnWeekDay(byDate, start, i, e);
          assert i < n;
        } else {
          assert OnWeekDay(byDate, start, n - 1, e);
        }
      }
    }
  }

  /** The UTC date of local midnight on `d` in a zone `offsetMinutes`
      ahead of UTC (less than a day either way): the previous day when the
      offset is positive, the same day otherwise. The week loop as written
      looks each day up by `toISOString()` of local midnight, cut at 'T',
      which is the ISO text of this date. */
  function UtcDay(d: ValidDate, offsetMinutes: int): (r: ValidDate)
    requires -1440 < offsetMinutes < 1440
    requires offsetMinutes > 0 ==> DayIndex(d) > 0
    ensures offsetMinutes <= 0 ==> r == d
    ensures offsetMinutes > 0 ==> DayIndex(r) + 1 == DayIndex(d)
  {
    if offsetMinutes > 0 then PrevDay(d) else d
  }

  /** The `n` days from `start`, in order. */
  function WeekDays(start: ValidDate, n: nat): (r: seq<ValidDate>)
    ensures |r| == n
    ensures forall i :: 0 <= i < n ==> r[i] == AddDays(start, i)
  {
    if n == 0 then [] else WeekDays(start, n - 1) + [AddDays(start, n - 1)]
  }

  /** The UTC dates of the `n` local days from `start`, in order. */
  function UtcDays(start: ValidDate, n: nat, offsetMinutes: int): (r: seq<ValidDate>)
    requires -1440 < offsetMinutes < 1440
    requires offsetMinutes > 0 ==> DayIndex(start) > 0
    ensures |r| == n
    ensures forall i :: 0 <= i < n ==> r[i] == UtcDay(AddDays(start, i), offsetMinutes)
  {
    if n == 0 then [] else UtcDays(start, n - 1, offsetMinutes) + [UtcDay(AddDays(start, n - 1), offsetMinutes)]
  }

  /** The entries filed under the ISO texts of `days`, day by day. */
  function Collect(byDate: map<string, seq<Entry>>, days: seq<ValidDate>): seq<Entry> {
    if days == [] then []
    else
      var k := IsoDate(days[|days| - 1]);
      Collect(byDate, days[..|days| - 1]) + (if k in byDate then byDate[k] else [])
  }

  /** The week loop as written: each local day looked up under the ISO text
      of its UTC date. */
  function WeekEntriesAsWritten(byDate: map<string, seq<Entry>>, start: ValidDate, n: nat, offsetMinutes: int): seq<Entry>
    requires -1440 < offsetMinutes < 1440
    requires offsetMinutes > 0 ==> DayIndex(start) > 0
  {
    Collect(byDate, UtcDays(start, n, offsetMinutes))
  }

  /** The intended week is the same lookup over the local days. */
  lemma {:induction false} WeekIsCollect(byDate: map<string, seq<Entry>>, start: ValidDate, n: nat)
    ensures WeekEntries(byDate, start, n) == Collect(byDate, WeekDays(start, n))
  {
    if n > 0 {
      WeekIsCollect(byDate, start, n - 1);
      assert WeekDays(start, n)[..n - 1] == WeekDays(start, n - 1);
    }
  }

  lemma {:induction false} WestDays(start: ValidDate, n: nat, offsetMinutes: int)
    requires -1440 < offsetMinutes <= 0
    ensures UtcDays(start, n, offsetMinutes) == WeekDays(start, n)
  {
    if n > 0 {
      WestDays(start, n - 1, offsetMinutes);
    }
  }

  lemma {:induction false} EastDays(start: ValidDate, n: nat, offsetMinutes: int)
    requires 0 < offsetMinutes < 1440 && DayIndex(start) > 0
    ensures UtcDays(start, n, offsetMinutes) == WeekDays(PrevDay(start), n)
  {
    if n > 0 {
      EastDays(start, n - 1, offsetMinutes);
      EastDayBefore(start, n - 1);
    }
  }

  /** The day before day `i` of a week is day `i` of the week that starts
      one day earlier. */
  lemma EastDayBefore(start: ValidDate, i: nat)
    requires DayIndex(start) > 0
    ensures PrevDay(AddDays(start, i)) == AddDays(PrevDay(start), i)
  {
    DayIndexInjective(PrevDay(AddDays(start, i)), AddDays(PrevDay(start), i));
  }

  /** At UTC or west of it the UTC dates are the local days, so the loop as
      written gathers the intended entries. */
  lemma WeekKeysAgreeWest(byDate: map<string, seq<Entry>>, start: ValidDate, n: nat, offsetMinutes: int)
    requires -1440 < offsetMinutes <= 0
    ensures WeekEntriesAsWritten(byDate, start, n, offsetMinutes) == WeekEntries(byDate, start, n)
  {
    calc {
      WeekEntriesAsWritten(byDate, start, n, offsetMinutes);
      Collect(byDate, UtcDays(start, n, offsetMinutes));
      { WestDays(start, n, offsetMinutes); }
      Collect(byDate, WeekDays(start, n));
      { WeekIsCollect(byDate, start, n); }
      WeekEntries(byDate, start, n);
    }
  }

  /** East of UTC every UTC date is the previous local day, so the loop as
      written gathers the week that starts one day earlier. */
  lemma WeekKeysShiftEast(byDate: map<string, seq<Entry>>, start: ValidDate, n: nat, offsetMinutes: int)
    requires 0 < offsetMinutes < 1440 && DayIndex(start) > 0
    ensures WeekEntriesAsWritten(byDate, start, n, offsetMinutes) == WeekEntries(byDate, PrevDay(start), n)
  {
    calc {
      WeekEntriesAsWritten(byDate, start, n, offsetMinutes);
      Collect(byDate, UtcDays(start, n, offsetMinutes));
      { EastDays(start, n, offsetMinutes); }
      Collect(byDate, WeekDays(PrevDay(start), n));
      { WeekIsCollect(byDate, PrevDay(start), n); }
      WeekEntries(byDate, PrevDay(start), n);
    }
  }

  /** East of UTC (Nairobi is 180 minutes ahead) an entry filed only under
      the last day of the selected week is missing from the list as
      written, although the week contains that day. */
  lemma {:induction false} WeekAsWrittenMissesLastDay(start: ValidDate, e: Entry, offsetMinutes: int)
    requires 0 < offsetMinutes < 1440 && DayIndex(start) > 0
    requires AddDays(start, 6).year <= 9999
    ensures var byDate := map[IsoDate(AddDays(start, 6)) := [e]];
      WeekEntriesAsWritten(byDate, start, 7, offsetMinutes) == [] &&
      e in WeekEntries(byDate, start, 7)
  {
    var last := AddDays(start, 6);
    var byDate := map[IsoDate(last) := [e]];
    WeekKeysShiftEast(byDate, start, 7, offsetMinutes);
    MissingBefore(byDate, PrevDay(start), 7, last);
    assert WeekEntries(byDate, start, 7) == WeekEntries(byDate, start, 6) + byDate[IsoDate(last)];
  }

  /** East of UTC an entry filed under the day before the selected week is
      listed as written. */
  lemma WeekAsWrittenShowsDayBefore(start: ValidDate, e: Entry, offsetMinutes: int)
    requires 0 < offsetMinutes < 1440 && DayIndex(start) > 0
    ensures e in WeekEntriesAsWritten(map[IsoDate(PrevDay(start)) := [e]], start, 7, offsetMinutes)
  {
    var byDate := map[IsoDate(PrevDay(start)) := [e]];
    WeekKeysShiftEast(byDate, start, 7, offsetMinutes);
    WeekEntriesSpec(byDate, PrevDay(start), 7);
    assert OnWeekDay(byDate, PrevDay(start), 0, e);
  }

  /** Days before `last` have other keys, so their lookups find nothing. */
  lemma {:induction false} MissingBefore(byDate: map<string, seq<Entry>>, start: ValidDate, n: nat, last: ValidDate)
    requires byDate.Keys == {IsoDate(last)}
    requires DayIndex(start) + n <= DayIndex(last) && last.year <= 9999
    ensures WeekEntries(byDate, start, n) == []
  {
    if n > 0 {
      MissingBefore(byDate, start, n - 1, last);
      var day := AddDays(start, n - 1);
      assert day.year <= last.year by {
        if day.year > last.year {
          assert Before(last, day);
          BeforeIsDayOrder(last, day);
        }
      }
      if IsoDate(day) == IsoDate(last) {
        IsoDateInjective(day, last);
      }
    }
  }

  /** The selected week of Sunday 2024-03-10 in Nairobi (UTC+3): a deadline
      on Saturday 2024-03-16 is left out of the list as written, and one on
      Saturday 2024-03-09, the day before the week, is listed. */
  lemma NairobiWeekMissesSaturday(e: Entry)
    ensures var start := Date(2024, 3, 10);
      var byDate := map[IsoDate(Date(2024, 3, 16)) := [e]];
      WeekEntriesAsWritten(byDate, start, 7, 180) == [] && e in WeekEntries(byDate, start, 7)
    ensures e in WeekEntriesAsWritten(map[IsoDate(Date(2024, 3, 9)) := [e]], Date(2024, 3, 10), 7, 180)
  {
    var start := Date(2024, 3, 10);
    var last := Date(2024, 3, 16);
    BeforeIsDayOrder(Date(1, 1, 1), start);
    assert AddDays(start, 6) == last by {
      assert AddDays(Date(2024, 3, 16), 0) == last;
      assert AddDays(Date(2024, 3, 15), 1) == last;
      assert AddDays(Date(2024, 3, 14), 2) == last;
      assert AddDays(Date(2024, 3, 13), 3) == last;
      assert AddDays(Date(2024, 3, 12), 4) == last;
      assert AddDays(Date(2024, 3, 11), 5) == last;
    }
    WeekAsWrittenMissesLastDay(start, e, 180);
    assert PrevDay(start) == Date(2024, 3, 9);
    WeekAsWrittenShowsDayBefore(start, e, 180);
  }

  /** The day count of a date text, 0 for text that is no date. */
  function DateRank(s: string): int {
    match ParseIsoDate(s)
    case Some(d) => DayIndex(d)
    case None => 0
  }

  function KindRank(e: Entry): int {
    if e.kind == AwardEntry then 1 else 0
  }

  /** Order of the week list: by the entry's own date, a deadline before an
      award on the same date. */
  function EntryOrder(e: Entry): int {
    2 * DateRank(EntryDate(e)) + KindRank(e)
  }

  /** The week comparator as written: it compares
      `application_deadline || award_date`, so an award entry of a grant
      that has a deadline is placed by that deadline. */
  function EntryOrderAsWritten(e: Entry): int {
    var date := if e.grant.applicationDeadline != "" then e.grant.applicationDeadline else e.grant.awardDate;
    2 * DateRank(date) + KindRank(e)
  }

  function SortWeekAsWritten(es: seq<Entry>): (r: seq<Entry>)
    ensures SortedBy(r, EntryOrderAsWritten) && multiset(r) == multiset(es)
  {
    SortBy(es, EntryOrderAsWritten)
  }

  /** A grant with an early deadline and a later award, next to another
      grant due in between: the comparator as written lists the award first,
      although its date is the later one. */
  lemma MisplacedAward(early: Date, mid: Date, late: Date)
    requires Valid(early) && Valid(mid) && Valid(late)
    requires early.year <= 9999 && mid.year <= 9999 && late.year <= 9999
    requires Before(early, mid) && Before(mid, late)
    ensures var award := AwardOf(MonthGrant(1, "approved", IsoDate(early), IsoDate(late)));
      var deadline := DeadlineOf(MonthGrant(2, "pending", IsoDate(mid), ""));
      SortWeekAsWritten([deadline, award]) == [award, deadline] &&
      DateRank(EntryDate(deadline)) < DateRank(EntryDate(award))
  {
    var award := AwardOf(MonthGrant(1, "approved", IsoDate(early), IsoDate(late)));
    var deadline := DeadlineOf(MonthGrant(2, "pending", IsoDate(mid), ""));
    ZeroPadRoundTrip(early.year, 4);
    IsoDateRoundTrip(early);
    IsoDateRoundTrip(mid);
    IsoDateRoundTrip(late);
    BeforeIsDayOrder(early, mid);
    BeforeIsDayOrder(mid, late);
    assert EntryOrderAsWritten(award) == 2 * DayIndex(early) + 1;
    assert EntryOrderAsWritten(deadline) == 2 * DayIndex(mid);
    assert SortBy([award], EntryOrderAsWritten) == [award];
    assert [deadline, award][1..] == [award];
    assert SortBy([deadline, award], EntryOrderAsWritten) == Insert(deadline, [award], EntryOrderAsWritten);
  }

  /** A grant with a January deadline and a March 12 award, next to another
      grant due March 11: the comparator as written lists the award first. */
  lemma WeekOrderAsWrittenMisplacesAwards()
    ensures var jan1, mar11, mar12 := Date(2024, 1, 1), Date(2024, 3, 11), Date(2024, 3, 12);
      var award := AwardOf(MonthGrant(1, "approved", IsoDate(jan1), IsoDate(mar12)));
      var deadline := DeadlineOf(MonthGrant(2, "pending", IsoDate(mar11), ""));
      SortWeekAsWritten([deadline, award]) == [award, deadline] &&
      DateRank(EntryDate(deadline)) < DateRank(EntryDate(award))
  {
    MisplacedAward(Date(2024, 1, 1), Date(2024, 3, 11), Date(2024, 3, 12));
  }

  /** `getGrantsForSelectedWeek`, ordered by each entry's own date: nothing
      without a selected week, else the entries of its seven days. */
  method GrantsForSelectedWeek(byDate: map<string, seq<Entry>>, weekStart: Option<ValidDate>)
    returns (week: seq<Entry>)
    ensures weekStart.None? ==> week == []
    ensures weekStart.Some? ==> multiset(week) == multiset(WeekEntries(byDate, weekStart.value, 7))
    ensures SortedBy(week, EntryOrder)
  {
    if weekStart.None? {
      return [];
    }
    var start := weekStart.value;
    var gathered: seq<Entry> := [];
    for i := 0 to 7
      invariant gathered == WeekEntries(byDate, start, i)
    {
      var k := IsoDate(AddDays(start, i));
      if k in byDate {
        gathered := gathered + byDate[k];
      }
    }
    week := SortBy(gathered, EntryOrder);
  }

  /** The week list runs by date, with a day's deadlines before its awards. */
  lemma WeekInDateOrder(week: seq<Entry>)
    requires SortedBy(week, EntryOrder)
    ensures forall i, j :: 0 <= i < j < |week| ==> DateRank(EntryDate(week[i])) <= DateRank(EntryDate(week[j]))
    ensures forall i, j :: (0 <= i < j < |week| && DateRank(EntryDate(week[i])) == DateRank(EntryDate(week[j])) &&
      week[i].kind == AwardEntry) ==> week[j].kind == AwardEntry
  {
    forall i, j | 0 <= i < j < |week|
      ensures DateRank(EntryDate(week[i])) <= DateRank(EntryDate(week[j]))
    {
      assert EntryOrder(week[i]) <= EntryOrder(week[j]);
    }
  }
}
