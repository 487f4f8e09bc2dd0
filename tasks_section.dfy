/** The dashboard's task overview: the priority and status badges, the
    relative due-date label, the overdue test and the search-and-filter of
    the task list. */
module TaskOverview {
  import opened Common
  import opened Strings
  import opened Dates
  import opened Seqs

  /** A task as the task endpoint returns it; `hasAssignee` says whether
      `assigned_to_details` is present. */
  datatype TaskRow = TaskRow(
    title: Option<string>,
    description: Option<string>,
    hasAssignee: bool,
    dueDate: Option<ValidDate>,
    status: Option<string>,
    isGrantFollowUp: bool,
    priority: string)

  /** The moment the list is shown: a day and the milliseconds into it. */
  datatype Clock = Clock(today: ValidDate, msOfDay: nat)

  type Now = c: Clock | c.msOfDay < 86400000 witness Clock(Date(1, 1, 1), 0)

  // ---------------------------------------------------------------- badges

  datatype PriorityConfig = HighConfig | MediumConfig | LowConfig

  /** `getPriorityConfig`: case-insensitive, medium for anything else. */
  function PriorityConfigFor(priority: string): (c: PriorityConfig)
    ensures c == HighConfig <==> Lower(priority) == "high"
    ensures c == LowConfig <==> Lower(priority) == "low"
    ensures c == MediumConfig <==> Lower(priority) != "high" && Lower(priority) != "low"
  {
    var k := Lower(priority);
    if k == "high" then HighConfig else if k == "low" then LowConfig else MediumConfig
  }

  datatype StatusConfig = TodoConfig | InProgressConfig | CompletedConfig

  /** The status values a task is stored with. */
  const TaskStatuses: seq<string> := ["todo", "in_progress", "completed", "on_hold"]

  /** `getStatusConfig` as written: its in-progress entry is keyed
      "in-progress", which no stored status is. */
  function StatusConfigAsWritten(status: string): (c: StatusConfig)
    ensures c == InProgressConfig <==> Lower(status) == "in-progress"
    ensures c == CompletedConfig <==> Lower(status) == "completed"
  {
    var k := Lower(status);
    if k == "in-progress" then InProgressConfig else if k == "completed" then CompletedConfig else TodoConfig
  }

  /** An in-progress task is badged as "To Do" by the table as written. */
  lemma InProgressBadgeAsWritten()
    ensures StatusConfigAsWritten("in_progress") == TodoConfig
  {
    assert Lower("in_progress") == "in_progress";
  }

  /** `getStatusConfig` keyed by the stored status values: case-insensitive,
      "To Do" for anything else. */
  function StatusConfigFor(status: string): (c: StatusConfig)
    ensures c == InProgressConfig <==> Lower(status) == "in_progress"
    ensures c == CompletedConfig <==> Lower(status) == "completed"
  {
    var k := Lower(status);
    if k == "in_progress" then InProgressConfig else if k == "completed" then CompletedConfig else TodoConfig
  }

  /** Each stored status with a badge of its own gets it. */
  lemma StoredStatusesBadged()
    ensures StatusConfigFor("todo") == TodoConfig
    ensures StatusConfigFor("in_progress") == InProgressConfig
    ensures StatusConfigFor("completed") == CompletedConfig
  {
    assert Lower("todo") == "todo";
    assert Lower("in_progress") == "in_progress";
    assert Lower("completed") == "completed";
  }

  // ---------------------------------------------------------------- due label

  /** What `formatDate` shows. `Absolute` carries whether the year is
      printed. */
  datatype DueLabel = NoDueDate | Today | Yesterday | Tomorrow | DaysAgo(n: nat) | InDays(n: nat) | Absolute(date: Date, withYear: bool)

  /** `formatDate`: relative words within six days of today, else the date,
      with its year when that is not the current one. */
  function FormatDue(due: Option<ValidDate>, today: ValidDate): (l: DueLabel)
    ensures l == NoDueDate <==> due.None?
    ensures l == Today <==> due == Some(today)
    ensures l == Yesterday <==> due.Some? && DayIndex(due.value) + 1 == DayIndex(today)
    ensures l == Tomorrow <==> due.Some? && DayIndex(due.value) == DayIndex(today) + 1
    ensures l.DaysAgo? ==> 2 <= l.n <= 6 && DayIndex(due.value) + l.n == DayIndex(today)
    ensures l.InDays? ==> 2 <= l.n <= 6 && DayIndex(due.value) == DayIndex(today) + l.n
    ensures l.Absolute? <==> due.Some? && (DayIndex(due.value) + 7 <= DayIndex(today) || DayIndex(today) + 7 <= DayIndex(due.value))
    ensures l.Absolute? ==> l.date == due.value && (l.withYear <==> due.value.year != today.year)
  {
    match due
    case None => NoDueDate
    case Some(d) =>
      var diff := DayIndex(d) - DayIndex(today);
      if diff == 0 then
        DayIndexInjective(d, today);
        Today
      else if diff == -1 then Yesterday
      else if diff == 1 then Tomorrow
      else if -7 < diff < 0 then DaysAgo(-diff)
      else if 0 < diff < 7 then InDays(diff)
      else Absolute(d, d.year != today.year)
  }

  /** The days shortly ahead read "In n days", those shortly past "n days
      ago". */
  lemma RelativeLabels(today: ValidDate, n: nat)
    requires 2 <= n <= 6
    ensures FormatDue(Some(AddDays(today, n)), today) == InDays(n)
    ensures n <= DayIndex(today) ==> FormatDue(Some(SubDays(today, n)), today) == DaysAgo(n)
  {
  }

  // ---------------------------------------------------------------- overdue

  /** An instant as a day count and milliseconds into that day. */
  datatype Moment = Moment(day: int, ms: int)

  predicate MomentBefore(a: Moment, b: Moment) {
    a.day < b.day || (a.day == b.day && a.ms < b.ms)
  }

  /** 23:59:59.999 on `d`. */
  function EndOfDay(d: ValidDate): Moment {
    Moment(DayIndex(d), 86399999)
  }

  /** `isOverdue`: a task without a due date or completed is never overdue;
      otherwise it is once the end of the due day has passed. */
  function IsOverdue(due: Option<ValidDate>, status: Option<string>, now: Now): (r: bool)
    ensures r <==> due.Some? && status != Some("completed") && DayIndex(due.value) < DayIndex(now.today)
  {
    if due.None? || status == Some("completed") then false
    else MomentBefore(EndOfDay(due.value), Moment(DayIndex(now.today), now.msOfDay))
  }

  /** A task due today is not overdue at any time of the day. */
  lemma DueTodayNotOverdue(status: Option<string>, now: Now)
    ensures !IsOverdue(Some(now.today), status, now)
  {
  }

  /** An overdue task is labelled with a day in the past. */
  lemma OverdueLabelledPast(t: TaskRow, now: Now)
    requires IsOverdue(t.dueDate, t.status, now)
    ensures var l := FormatDue(t.dueDate, now.today);
      l == Yesterday || l.DaysAgo? || (l.Absolute? && DayIndex(l.date) < DayIndex(now.today))
  {
  }

  // ---------------------------------------------------------------- due dates as parsed

  /** `new Date("YYYY-MM-DD")` reads a bare date as midnight UTC, and both
      `formatDate` and `isOverdue` then take the local day of that instant.
      With the local clock `offsetMinutes` ahead of UTC (less than a day
      either way), that is the due day itself at UTC or east of it and the
      day before west of it. */
  function ParsedDueDay(due: ValidDate, offsetMinutes: int): (d: ValidDate)
    requires -1440 < offsetMinutes < 1440
    requires offsetMinutes < 0 ==> DayIndex(due) > 0
    ensures offsetMinutes >= 0 ==> d == due
    ensures offsetMinutes < 0 ==> DayIndex(d) + 1 == DayIndex(due)
  {
    if offsetMinutes < 0 then PrevDay(due) else due
  }

  function ParsedDue(due: Option<ValidDate>, offsetMinutes: int): Option<ValidDate>
    requires -1440 < offsetMinutes < 1440
    requires due.Some? && offsetMinutes < 0 ==> DayIndex(due.value) > 0
  {
    match due
    case None => None
    case Some(d) => Some(ParsedDueDay(d, offsetMinutes))
  }

  /** `formatDate` as written: the label of the parsed day. */
  function FormatDueAsWritten(due: Option<ValidDate>, today: ValidDate, offsetMinutes: int): (l: DueLabel)
    requires -1440 < offsetMinutes < 1440
    requires due.Some? && offsetMinutes < 0 ==> DayIndex(due.value) > 0
    ensures l == NoDueDate <==> due.None?
    ensures offsetMinutes >= 0 ==> l == FormatDue(due, today)
    ensures due.Some? && offsetMinutes < 0 ==> (l == Today <==> DayIndex(due.value) == DayIndex(today) + 1)
  {
    FormatDue(ParsedDue(due, offsetMinutes), today)
  }

  /** `isOverdue` as written: the end of the parsed day against the clock. */
  function IsOverdueAsWritten(due: Option<ValidDate>, status: Option<string>, now: Now, offsetMinutes: int): (r: bool)
    requires -1440 < offsetMinutes < 1440
    requires due.Some? && offsetMinutes < 0 ==> DayIndex(due.value) > 0
    ensures offsetMinutes >= 0 ==> r == IsOverdue(due, status, now)
    ensures offsetMinutes < 0 ==>
      (r <==> due.Some? && status != Some("completed") && DayIndex(due.value) <= DayIndex(now.today))
  {
    IsOverdue(ParsedDue(due, offsetMinutes), status, now)
  }

  /** West of UTC the page as written shows a task due today as due
      "Yesterday" and overdue from the first millisecond of its due day,
      unless it is completed. */
  lemma DueTodayOverdueWestOfUtc(status: Option<string>, now: Now, offsetMinutes: int)
    requires -1440 < offsetMinutes < 0
    requires DayIndex(now.today) > 0
    ensures FormatDueAsWritten(Some(now.today), now.today, offsetMinutes) == Yesterday
    ensures IsOverdueAsWritten(Some(now.today), status, now, offsetMinutes) <==> status != Some("completed")
    ensures FormatDue(Some(now.today), now.today) == Today && !IsOverdue(Some(now.today), status, now)
  {
  }

  /** At UTC−5, a pending task due 2024-03-10 is labelled "Yesterday" and
      overdue at midnight on 2024-03-10. */
  lemma NewYorkDueTodayOverdue()
    ensures var now: Now := Clock(Date(2024, 3, 10), 0);
      FormatDueAsWritten(Some(Date(2024, 3, 10)), now.today, -300) == Yesterday &&
      IsOverdueAsWritten(Some(Date(2024, 3, 10)), Some("pending"), now, -300)
  {
    BeforeIsDayOrder(Date(1, 1, 1), Date(2024, 3, 10));
    DueTodayOverdueWestOfUtc(Some("pending"), Clock(Date(2024, 3, 10), 0), -300);
  }

  // ---------------------------------------------------------------- filtering

  /** The search: the term occurs in the title or the description, ignoring
      case; a missing text counts as empty. */
  predicate MatchesSearch(t: TaskRow, term: string) {
    Contains(Lower(t.title.GetOr("")), Lower(term)) || Contains(Lower(t.description.GetOr("")), Lower(term))
  }

  /** The filter button's own test; any key that is not a special one is a
      status compared with the lower-cased stored status. */
  predicate PassesFilter(t: TaskRow, key: string, now: Now) {
    if key == "all" then true
    else if key == "assigned" then t.hasAssignee
    else if key == "unassigned" then !t.hasAssignee
    else if key == "overdue" then IsOverdue(t.dueDate, t.status, now)
    else if key == "grant" then t.isGrantFollowUp
    else t.status.Some? && Lower(t.status.value) == key
  }

  function Keeps(key: string, term: string, now: Now): TaskRow -> bool {
    t => MatchesSearch(t, term) && PassesFilter(t, key, now)
  }

  function SearchOnly(term: string): TaskRow -> bool {
    t => MatchesSearch(t, term)
  }

  /** `filteredTasks`: the tasks matching the search and the filter, in the
      list's order. */
  function FilteredTasks(tasks: seq<TaskRow>, key: string, term: string, now: Now): (r: seq<TaskRow>)
    ensures forall t :: t in r <==> t in tasks && MatchesSearch(t, term) && PassesFilter(t, key, now)
    ensures Subsequence(r, tasks)
  {
    FilterSubsequence(tasks, Keeps(key, term, now));
    Filter(tasks, Keeps(key, term, now))
  }

  /** "All" is the search alone. */
  lemma AllIsSearch(tasks: seq<TaskRow>, term: string, now: Now)
    ensures FilteredTasks(tasks, "all", term, now) == Filter(tasks, SearchOnly(term))
  {
    FilterCongruent(tasks, Keeps("all", term, now), SearchOnly(term));
  }

  /** "Assigned" and "Unassigned" split the search matches between them. */
  lemma AssignedPartition(tasks: seq<TaskRow>, term: string, now: Now)
    ensures multiset(FilteredTasks(tasks, "assigned", term, now)) + multiset(FilteredTasks(tasks, "unassigned", term, now))
      == multiset(FilteredTasks(tasks, "all", term, now))
    ensures forall t :: !(t in FilteredTasks(tasks, "assigned", term, now) && t in FilteredTasks(tasks, "unassigned", term, now))
  {
    var whole, yes, no := Keeps("all", term, now), Keeps("assigned", term, now), Keeps("unassigned", term, now);
    forall x ensures whole(x) == (yes(x) || no(x)) && !(yes(x) && no(x)) {
    }
    FilterPartition(tasks, whole, yes, no);
  }

  /** A status key keeps the search matches whose stored status, lower-cased,
      is the key. */
  lemma StatusKeyFilter(tasks: seq<TaskRow>, key: string, term: string, now: Now)
    requires key !in {"all", "assigned", "unassigned", "overdue", "grant"}
    ensures forall t :: t in FilteredTasks(tasks, key, term, now) <==>
      (t in tasks && MatchesSearch(t, term) && t.status.Some? && Lower(t.status.value) == key)
  {
  }

  /** "Overdue" keeps the overdue search matches and "Grant" the grant
      follow-ups among them. */
  lemma OverdueAndGrantKeys(tasks: seq<TaskRow>, term: string, now: Now)
    ensures forall t :: t in FilteredTasks(tasks, "overdue", term, now) <==>
      (t in tasks && MatchesSearch(t, term) && IsOverdue(t.dueDate, t.status, now))
    ensures forall t :: t in FilteredTasks(tasks, "grant", term, now) <==>
      (t in tasks && MatchesSearch(t, term) && t.isGrantFollowUp)
  {
  }

  /** The filter buttons as written. */
  const FilterButtonsAsWritten: seq<string> :=
    ["all", "todo", "in-progress", "completed", "assigned", "unassigned", "overdue", "grant"]

  predicate StoredStatuses(tasks: seq<TaskRow>) {
    forall k :: 0 <= k < |tasks| ==> tasks[k].status.None? || tasks[k].status.value in TaskStatuses
  }

  /** The "In Progress" button as written shows nothing: no stored status
      lower-cases to "in-progress". */
  lemma InProgressButtonAsWrittenEmpty(tasks: seq<TaskRow>, term: string, now: Now)
    requires StoredStatuses(tasks)
    ensures "in-progress" in FilterButtonsAsWritten
    ensures FilteredTasks(tasks, "in-progress", term, now) == []
  {
    assert Lower("todo") == "todo";
    assert Lower("in_progress") == "in_progress";
    assert Lower("completed") == "completed";
    assert Lower("on_hold") == "on_hold";
    assert forall t :: t in tasks ==> !PassesFilter(t, "in-progress", now);
  }

  /** The filter buttons keyed by the stored status values. */
  const FilterButtons: seq<string> :=
    ["all", "todo", "in_progress", "completed", "assigned", "unassigned", "overdue", "grant"]

  /** The "In Progress" button shows exactly the in-progress search
      matches. */
  lemma InProgressButton(tasks: seq<TaskRow>, term: string, now: Now)
    requires StoredStatuses(tasks)
    ensures "in_progress" in FilterButtons
    ensures forall t :: t in FilteredTasks(tasks, "in_progress", term, now) <==>
      (t in tasks && MatchesSearch(t, term) && t.status == Some("in_progress"))
  {
    assert Lower("todo") == "todo";
    assert Lower("in_progress") == "in_progress";
    assert Lower("completed") == "completed";
    assert Lower("on_hold") == "on_hold";
    forall t | t in tasks
      ensures t.status.Some? && Lower(t.status.value) == "in_progress" <==> t.status == Some("in_progress")
    {
      var k :| 0 <= k < |tasks| && tasks[k] == t;
    }
  }
}
