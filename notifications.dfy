/** Notifications: the message of a task-assignment notification and the
    daily pass that reminds every active user of pending grants due within
    a week, at most once per user, grant and day. */
module Notifications {
  import opened Common
  import opened Strings
  import Dates
  import Grants
  import Tasks
  import Seqs

  datatype NotificationKind = TaskAssigned | GrantDeadlineReminder | General

  /** A stored notification; `createdOn` is the date part of `created_at`. */
  datatype Notification = Notification(
    recipient: UserId,
    message: string,
    kind: NotificationKind,
    link: Option<string>,
    createdOn: Dates.Date)

  /** A user account as far as notifications read it. The user model drops
      Django's `first_name` and `last_name` fields, so both are always
      `None`. */
  datatype Account = Account(id: UserId, fullName: string, email: string, firstName: Option<string>, lastName: Option<string>)

  /** Python's `str()` of an optional string. */
  function PyStr(s: Option<string>): string {
    match s
    case Some(v) => v
    case None => "None"
  }

  /** Python's rendering of an integer. */
  function IntToString(n: int): string {
    if n < 0 then "-" + NatToString(-n) else NatToString(n)
  }

  // ---------------------------------------------------------------- assignment

  function TaskLink(taskId: nat): string {
    "/tasks/" + NatToString(taskId) + "/"
  }

  /** Django's `AbstractUser.get_full_name`: first and last name joined by a
      space, stripped. */
  function GetFullName(a: Account): string {
    Trim(PyStr(a.firstName) + " " + PyStr(a.lastName))
  }

  /** The assigner's name as written: `get_full_name() or email`. */
  function AssignerLabelAsWritten(a: Account): string {
    if GetFullName(a) != "" then GetFullName(a) else a.email
  }

  /** With the name fields removed from the user model, the label is the
      text "None None" for every assigner. */
  lemma AssignerLabelIsNoneNone(a: Account)
    requires a.firstName.None? && a.lastName.None?
    ensures AssignerLabelAsWritten(a) == "None None"
  {
    assert PyStr(a.firstName) + " " + PyStr(a.lastName) == "None None";
  }

  /** The assigner's name as evidently intended: the account's full name,
      or its email when the name is empty. */
  function AssignerLabel(a: Account): (r: string)
    ensures a.fullName != "" ==> r == a.fullName
    ensures a.fullName == "" ==> r == a.email
  {
    if a.fullName != "" then a.fullName else a.email
  }

  /** The message of an assignment notification given the assigner's label. */
  function AssignmentMessageWith(title: string, assignerLabel: Option<string>): (m: string)
    ensures assignerLabel.None? ==> m == "You have been assigned a new task: '" + title + "'."
    ensures assignerLabel.Some? ==> m == "You have been assigned a new task: '" + title + "' by " + assignerLabel.value + "."
  {
    var head := "You have been assigned a new task: '" + title + "'";
    match assignerLabel
    case None => head + "."
    case Some(name) => head + " by " + name + "."
  }

  /** `create_task_assignment_notification_task` as written: a missing task,
      recipient or assigner creates nothing (the error is logged). */
  function AssignmentNotificationAsWritten(req: Tasks.NotifyRequest, titles: map<nat, string>,
                                           accounts: map<UserId, Account>, today: Dates.ValidDate): Option<Notification>
  {
    if req.taskId !in titles || req.assigneeId !in accounts then None
    else if req.assignerId.Some? && req.assignerId.value !in accounts then None
    else
      var assigner := if req.assignerId.Some? then Some(AssignerLabelAsWritten(accounts[req.assignerId.value])) else None;
      Some(Notification(req.assigneeId, AssignmentMessageWith(titles[req.taskId], assigner), TaskAssigned,
                        Some(TaskLink(req.taskId)), today))
  }

  /** The notification created for a request from the task signal, with the
      assigner named by full name or email. */
  function AssignmentNotification(req: Tasks.NotifyRequest, titles: map<nat, string>,
                                  accounts: map<UserId, Account>, today: Dates.ValidDate): (r: Option<Notification>)
    ensures r.Some? <==> (req.taskId in titles && req.assigneeId in accounts &&
                          (req.assignerId.Some? ==> req.assignerId.value in accounts))
    ensures r.Some? ==>
      r.value.recipient == req.assigneeId && r.value.kind == TaskAssigned &&
      r.value.link == Some("/tasks/" + NatToString(req.taskId) + "/") && r.value.createdOn == today &&
      r.value.message == AssignmentMessageWith(titles[req.taskId],
        if req.assignerId.Some? then Some(AssignerLabel(accounts[req.assignerId.value])) else None)
  {
    if req.taskId !in titles || req.assigneeId !in accounts then None
    else if req.assignerId.Some? && req.assignerId.value !in accounts then None
    else
      var assigner := if req.assignerId.Some? then Some(AssignerLabel(accounts[req.assignerId.value])) else None;
      Some(Notification(req.assigneeId, AssignmentMessageWith(titles[req.taskId], assigner), TaskAssigned,
                        Some(TaskLink(req.taskId)), today))
  }

  /** The two differ exactly in how an assigner is named: as written, a
      message with an assigner always ends in " by None None.". */
  lemma AssignmentAsWrittenNamesNobody(req: Tasks.NotifyRequest, titles: map<nat, string>,
                                       accounts: map<UserId, Account>, today: Dates.ValidDate)
    requires req.assignerId.Some? && req.assignerId.value in accounts
    requires accounts[req.assignerId.value].firstName.None? && accounts[req.assignerId.value].lastName.None?
    requires req.taskId in titles && req.assigneeId in accounts
    ensures AssignmentNotificationAsWritten(req, titles, accounts, today).value.message ==
      "You have been assigned a new task: '" + titles[req.taskId] + "' by None None."
  {
    AssignerLabelIsNoneNone(accounts[req.assignerId.value]);
  }

  /** Without an assigner both versions produce the same notification. */
  lemma AssignmentWithoutAssignerAgrees(req: Tasks.NotifyRequest, titles: map<nat, string>,
                                        accounts: map<UserId, Account>, today: Dates.ValidDate)
    requires req.assignerId.None?
    ensures AssignmentNotificationAsWritten(req, titles, accounts, today) == AssignmentNotification(req, titles, accounts, today)
  {
  }

  // ---------------------------------------------------------------- reminders

  function GrantLink(grantId: nat): string {
    "/grants/" + NatToString(grantId) + "/"
  }

  /** A pending grant whose deadline lies in [today, end]; the pass uses
      end = today + 7 days. */
  predicate DueForReminder(g: Grants.Grant, today: Dates.ValidDate, end: Dates.Date) {
    g.status == Grants.Pending && g.deadline.Some? &&
    !Dates.Before(g.deadline.value, today) && !Dates.Before(end, g.deadline.value)
  }

  /** `(deadline - today).days`. */
  function DaysLeft(g: Grants.Grant, today: Dates.ValidDate): int
    requires g.deadline.Some?
  {
    Dates.DayIndex(g.deadline.value) - Dates.DayIndex(today)
  }

  /** The days left on a grant due for a reminder lie in 0..7. */
  lemma DaysLeftRange(g: Grants.Grant, today: Dates.ValidDate)
    requires DueForReminder(g, today, Dates.AddDays(today, 7))
    ensures 0 <= DaysLeft(g, today) <= 7
  {
    Dates.BeforeIsDayOrder(g.deadline.value, today);
    Dates.BeforeIsDayOrder(Dates.AddDays(today, 7), g.deadline.value);
  }

  function ReminderMessage(g: Grants.Grant, today: Dates.ValidDate): string
    requires g.deadline.Some?
  {
    "Reminder: Grant '" + g.organizationName + "' deadline is in " + IntToString(DaysLeft(g, today)) +
    " day(s) on " + Dates.IsoDate(g.deadline.value) + "."
  }

  /** The reminder created for one grant and one user. */
  function ReminderFor(g: Grants.Grant, u: UserId, today: Dates.ValidDate): Notification
    requires g.deadline.Some?
  {
    Notification(u, ReminderMessage(g, today), GrantDeadlineReminder, Some(GrantLink(g.id)), today)
  }

  /** What the duplicate check looks for: a reminder to the user, created
      today, whose link contains the grant's link in any letter case. */
  predicate IsReminderFor(n: Notification, u: UserId, link: string, today: Dates.ValidDate) {
    n.recipient == u && n.kind == GrantDeadlineReminder && n.link.Some? &&
    ContainsIgnoringCase(n.link.value, link) && n.createdOn == today
  }

  predicate HasReminder(ns: seq<Notification>, u: UserId, link: string, today: Dates.ValidDate) {
    exists n :: n in ns && IsReminderFor(n, u, link, today)
  }

  /** No two reminders to one user with one link on one day. */
  predicate UniqueReminders(ns: seq<Notification>) {
    forall i, j ::
      (0 <= i < j < |ns| && ns[i].kind == GrantDeadlineReminder && ns[j].kind == GrantDeadlineReminder &&
       ns[i].recipient == ns[j].recipient && ns[i].createdOn == ns[j].createdOn) ==> ns[i].link != ns[j].link
  }

  /** Every user already has today's reminder for every due grant. */
  predicate Covered(ns: seq<Notification>, grants: seq<Grants.Grant>, users: seq<UserId>, today: Dates.ValidDate, end: Dates.Date) {
    forall g, u :: g in grants && u in users && DueForReminder(g, today, end) ==> HasReminder(ns, u, GrantLink(g.id), today)
  }

  /** A notification of the pass: the reminder of a due grant to a user. */
  predicate IsPassReminder(n: Notification, grants: seq<Grants.Grant>, users: seq<UserId>, today: Dates.ValidDate, end: Dates.Date) {
    exists g, u :: g in grants && u in users && DueForReminder(g, today, end) && n == ReminderFor(g, u, today)
  }

  lemma ContainsSelf(s: string)
    ensures ContainsIgnoringCase(s, s)
  {
    assert OccursAt(Lower(s), Lower(s), 0);
  }


  /** The inner step: the user's reminder for the grant, unless the user
      already has one today. */
  function RemindStep(ns: seq<Notification>, g: Grants.Grant, u: UserId, today: Dates.ValidDate): seq<Notification>
    requires g.deadline.Some?
  {
    if HasReminder(ns, u, GrantLink(g.id), today) then ns else ns + [ReminderFor(g, u, today)]
  }

  /** The inner loop: the step for each user in turn. */
  function RemindUsers(ns: seq<Notification>, g: Grants.Grant, users: seq<UserId>, today: Dates.ValidDate): seq<Notification>
    requires g.deadline.Some?
  {
    if users == [] then ns
    else RemindStep(RemindUsers(ns, g, users[..|users| - 1], today), g, users[|users| - 1], today)
  }

  /** The outer loop: the inner loop for each due grant in turn. */
  function RemindGrants(ns: seq<Notification>, due: seq<Grants.Grant>, users: seq<UserId>, today: Dates.ValidDate): seq<Notification>
    requires forall g :: g in due ==> g.deadline.Some?
  {
    if due == [] then ns
    else RemindUsers(RemindGrants(ns, due[..|due| - 1], users, today), due[|due| - 1], users, today)
  }

  /** A reminder, once there, stays there. */
  lemma HasReminderGrows(ns: seq<Notification>, ns': seq<Notification>, u: UserId, link: string, today: Dates.ValidDate)
    requires ns <= ns' && HasReminder(ns, u, link, today)
    ensures HasReminder(ns', u, link, today)
  {
    var n :| n in ns && IsReminderFor(n, u, link, today);
    var k :| 0 <= k < |ns| && ns[k] == n;
    assert ns'[k] == n;
  }

  /** One step leaves the user with a reminder, keeps the old ones first,
      adds at most its own reminder, and creates no duplicate. */
  lemma StepProps(ns: seq<Notification>, g: Grants.Grant, u: UserId, today: Dates.ValidDate)
    requires g.deadline.Some?
    ensures var r := RemindStep(ns, g, u, today);
      ns <= r && HasReminder(r, u, GrantLink(g.id), today) &&
      (r == ns || r == ns + [ReminderFor(g, u, today)]) &&
      (UniqueReminders(ns) ==> UniqueReminders(r))
  {
    var r := RemindStep(ns, g, u, today);
    if !HasReminder(ns, u, GrantLink(g.id), today) {
      var n := ReminderFor(g, u, today);
      ContainsSelf(GrantLink(g.id));
      assert IsReminderFor(n, u, GrantLink(g.id), today) && n in r;
      forall i | 0 <= i < |ns| && ns[i].kind == GrantDeadlineReminder && ns[i].recipient == u && ns[i].createdOn == today
        ensures ns[i].link != n.link
      {
        assert ns[i] in ns;
      }
    }
  }

  /** The reminder of the grant to one of the users. */
  predicate IsUsersReminder(n: Notification, g: Grants.Grant, users: seq<UserId>, today: Dates.ValidDate)
    requires g.deadline.Some?
  {
    exists u :: u in users && n == ReminderFor(g, u, today)
  }

  /** The inner loop appends only the grant's reminders to the users. */
  lemma {:induction false} UsersAppend(ns: seq<Notification>, g: Grants.Grant, users: seq<UserId>, today: Dates.ValidDate)
    requires g.deadline.Some?
    ensures var r := RemindUsers(ns, g, users, today);
      ns <= r && forall k :: |ns| <= k < |r| ==> IsUsersReminder(r[k], g, users, today)
  {
    if users != [] {
      var init, last := users[..|users| - 1], users[|users| - 1];
      var mid := RemindUsers(ns, g, init, today);
      var r := RemindUsers(ns, g, users, today);
      assert r == RemindStep(mid, g, last, today);
      UsersAppend(ns, g, init, today);
      StepProps(mid, g, last, today);
      forall k | |ns| <= k < |r|
        ensures IsUsersReminder(r[k], g, users, today)
      {
        if k < |mid| {
          assert IsUsersReminder(mid[k], g, init, today);
          var u :| u in init && mid[k] == ReminderFor(g, u, today);
          assert r[k] == mid[k];
          assert u in users;
        } else {
          assert r[k] == ReminderFor(g, last, today);
          assert last in users;
        }
      }
    }
  }

  /** After the inner loop every user has the grant's reminder. */
  lemma {:induction false} UsersCover(ns: seq<Notification>, g: Grants.Grant, users: seq<UserId>, today: Dates.ValidDate)
    requires g.deadline.Some?
    ensures forall u :: u in users ==> HasReminder(RemindUsers(ns, g, users, today), u, GrantLink(g.id), today)
  {
    if users != [] {
      var init, last := users[..|users| - 1], users[|users| - 1];
      var mid := RemindUsers(ns, g, init, today);
      UsersCover(ns, g, init, today);
      StepProps(mid, g, last, today);
      forall u | u in users
        ensures HasReminder(RemindUsers(ns, g, users, today), u, GrantLink(g.id), today)
      {
        if u != last {
          assert u in init;
          HasReminderGrows(mid, RemindUsers(ns, g, users, today), u, GrantLink(g.id), today);
        }
      }
    }
  }

  /** The inner loop changes nothing when every user has the reminder, and
      never creates a duplicate. */
  lemma {:induction false} UsersIdleAndUnique(ns: seq<Notification>, g: Grants.Grant, users: seq<UserId>, today: Dates.ValidDate)
    requires g.deadline.Some?
    ensures (forall u :: u in users ==> HasReminder(ns, u, GrantLink(g.id), today)) ==> RemindUsers(ns, g, users, today) == ns
    ensures UniqueReminders(ns) ==> UniqueReminders(RemindUsers(ns, g, users, today))
  {
    if users != [] {
      var init, last := users[..|users| - 1], users[|users| - 1];
      UsersIdleAndUnique(ns, g, init, today);
      StepProps(RemindUsers(ns, g, init, today), g, last, today);
      assert forall u :: u in init ==> u in users;
      assert last in users;
    }
  }

  /** The reminder of one of the grants to one of the users. */
  predicate IsReminderOfAny(n: Notification, due: seq<Grants.Grant>, users: seq<UserId>, today: Dates.ValidDate) {
    exists g, u :: g in due && u in users && g.deadline.Some? && n == ReminderFor(g, u, today)
  }

  /** The outer loop appends only reminders of the due grants to the users. */
  lemma {:induction false} GrantsAppend(ns: seq<Notification>, due: seq<Grants.Grant>, users: seq<UserId>, today: Dates.ValidDate)
    requires forall g :: g in due ==> g.deadline.Some?
    ensures var r := RemindGrants(ns, due, users, today);
      ns <= r && forall k :: |ns| <= k < |r| ==> IsReminderOfAny(r[k], due, users, today)
  {
    if due != [] {
      var init, last := due[..|due| - 1], due[|due| - 1];
      assert forall g :: g in init ==> g in due;
      var mid := RemindGrants(ns, init, users, today);
      GrantsAppend(ns, init, users, today);
      UsersAppend(mid, last, users, today);
      var r := RemindGrants(ns, due, users, today);
      assert r == RemindUsers(mid, last, users, today);
      forall k | |ns| <= k < |r|
        ensures IsReminderOfAny(r[k], due, users, today)
      {
        if k < |mid| {
          assert IsReminderOfAny(mid[k], init, users, today);
          var g, u :| g in init && u in users && g.deadline.Some? && mid[k] == ReminderFor(g, u, today);
          assert g in due && u in users && r[k] == ReminderFor(g, u, today);
        } else {
          assert IsUsersReminder(r[k], last, users, today);
          var u :| u in users && r[k] == ReminderFor(last, u, today);
          assert last in due && u in users && r[k] == ReminderFor(last, u, today);
        }
      }
    }
  }

  /** After the outer loop every user has every due grant's reminder. */
  lemma {:induction false} GrantsCover(ns: seq<Notification>, due: seq<Grants.Grant>, users: seq<UserId>, today: Dates.ValidDate)
    requires forall g :: g in due ==> g.deadline.Some?
    ensures forall g, u :: g in due && u in users ==> HasReminder(RemindGrants(ns, due, users, today), u, GrantLink(g.id), today)
  {
    if due != [] {
      var init, last := due[..|due| - 1], due[|due| - 1];
      assert forall g :: g in init ==> g in due;
      var mid := RemindGrants(ns, init, users, today);
      var r := RemindGrants(ns, due, users, today);
      GrantsCover(ns, init, users, today);
      UsersCover(mid, last, users, today);
      UsersAppend(mid, last, users, today);
      forall g, u | g in due && u in users
        ensures HasReminder(r, u, GrantLink(g.id), today)
      {
        if g != last {
          assert g in init;
          HasReminderGrows(mid, r, u, GrantLink(g.id), today);
        }
      }
    }
  }

  /** The outer loop changes nothing when everything is covered, and never
      creates a duplicate. */
  lemma {:induction false} GrantsIdleAndUnique(ns: seq<Notification>, due: seq<Grants.Grant>, users: seq<UserId>, today: Dates.ValidDate)
    requires forall g :: g in due ==> g.deadline.Some?
    ensures (forall g, u :: g in due && u in users ==> HasReminder(ns, u, GrantLink(g.id), today)) ==>
      RemindGrants(ns, due, users, today) == ns
    ensures UniqueReminders(ns) ==> UniqueReminders(RemindGrants(ns, due, users, today))
  {
    if due != [] {
      var init, last := due[..|due| - 1], due[|due| - 1];
      assert forall g :: g in init ==> g in due;
      assert last in due;
      GrantsIdleAndUnique(ns, init, users, today);
      UsersIdleAndUnique(RemindGrants(ns, init, users, today), last, users, today);
    }
  }

  /** With no users the outer loop creates nothing. */
  lemma {:induction false} NoUsersNoReminders(ns: seq<Notification>, due: seq<Grants.Grant>, today: Dates.ValidDate)
    requires forall g :: g in due ==> g.deadline.Some?
    ensures RemindGrants(ns, due, [], today) == ns
  {
    if due != [] {
      NoUsersNoReminders(ns, due[..|due| - 1], today);
    }
  }

  /** The grants the pass reminds of: pending and due within a week. */
  function DueGrants(grants: seq<Grants.Grant>, today: Dates.ValidDate, end: Dates.Date): (due: seq<Grants.Grant>)
    ensures forall g :: g in due <==> g in grants && DueForReminder(g, today, end)
  {
    Seqs.Filter(grants, (g: Grants.Grant) => DueForReminder(g, today, end))
  }

  /** What one pass leaves: the old notifications first, then only
      reminders of due grants; every active user covered; nothing new when
      everything was covered (so a second pass on the same day creates
      nothing); no duplicates created; nothing at all without users. */
  lemma PassProps(ns: seq<Notification>, grants: seq<Grants.Grant>, users: seq<UserId>, today: Dates.ValidDate, end: Dates.Date)
    ensures var r := RemindGrants(ns, DueGrants(grants, today, end), users, today);
      ns <= r &&
      (forall k :: |ns| <= k < |r| ==> IsPassReminder(r[k], grants, users, today, end)) &&
      Covered(r, grants, users, today, end) &&
      (Covered(ns, grants, users, today, end) ==> r == ns) &&
      (UniqueReminders(ns) ==> UniqueReminders(r)) &&
      (users == [] ==> r == ns)
  {
    var due := DueGrants(grants, today, end);
    var r := RemindGrants(ns, due, users, today);
    GrantsAppend(ns, due, users, today);
    GrantsCover(ns, due, users, today);
    GrantsIdleAndUnique(ns, due, users, today);
    NoUsersNoReminders(ns, due, today);
    forall k | |ns| <= k < |r|
      ensures IsPassReminder(r[k], grants, users, today, end)
    {
      var g, u :| g in due && u in users && g.deadline.Some? && r[k] == ReminderFor(g, u, today);
    }
  }

  /** The notifications table. */
  class NotificationStore {
    var notifications: seq<Notification>

    constructor()
      ensures notifications == []
    {
      notifications := [];
    }

    /** `create_task_assignment_notification_task`, storing the corrected
        notification: the assigner is named by full name, falling back to
        the email, where the task as written stores "None None" (see
        `AssignmentNotificationAsWritten`). */
    method NotifyAssignment(req: Tasks.NotifyRequest, titles: map<nat, string>, accounts: map<UserId, Account>, today: Dates.ValidDate)
      modifies this
      ensures notifications == old(notifications) +
        match AssignmentNotification(req, titles, accounts, today) case Some(n) => [n] case None => []
    {
      var n := AssignmentNotification(req, titles, accounts, today);
      if n.Some? {
        notifications := notifications + [n.value];
      }
    }

    /** The duplicate check and the creation of one reminder. */
    method Remind(g: Grants.Grant, u: UserId, today: Dates.ValidDate)
      requires g.deadline.Some?
      modifies this
      ensures notifications == RemindStep(old(notifications), g, u, today)
    {
      var already := exists n :: n in notifications && IsReminderFor(n, u, GrantLink(g.id), today);
      if !already {
        notifications := notifications + [ReminderFor(g, u, today)];
      }
    }

    /** The loop over the active users for one due grant. */
    method RemindAll(g: Grants.Grant, users: seq<UserId>, today: Dates.ValidDate)
      requires g.deadline.Some?
      modifies this
      ensures notifications == RemindUsers(old(notifications), g, users, today)
    {
      ghost var before := notifications;
      var j := 0;
      while j < |users|
        invariant 0 <= j <= |users|
        invariant notifications == RemindUsers(before, g, users[..j], today)
      {
        assert users[..j + 1][..j] == users[..j];
        Remind(g, users[j], today);
        j := j + 1;
      }
      assert users[..|users|] == users;
    }

    /** `check_grant_deadlines_and_notify_task`: every active user gets
        today's reminder for every pending grant due within a week, unless
        they already have one; `PassProps` states what that leaves. */
    method CheckGrantDeadlines(grants: seq<Grants.Grant>, activeUsers: seq<UserId>, today: Dates.ValidDate)
      modifies this
      ensures notifications == RemindGrants(old(notifications), DueGrants(grants, today, Dates.AddDays(today, 7)), activeUsers, today)
    {
      var end := Dates.AddDays(today, 7);
      var due := DueGrants(grants, today, end);
      if activeUsers == [] {
        NoUsersNoReminders(notifications, due, today);
        return;
      }
      RemindEach(due, activeUsers, today);
    }

    /** The loop over the due grants. */
    method RemindEach(due: seq<Grants.Grant>, users: seq<UserId>, today: Dates.ValidDate)
      requires forall g :: g in due ==> g.deadline.Some?
      modifies this
      ensures notifications == RemindGrants(old(notifications), due, users, today)
    {
      ghost var before := notifications;
      var i := 0;
      while i < |due|
        invariant 0 <= i <= |due|
        invariant notifications == RemindGrants(before, due[..i], users, today)
      {
        assert due[..i + 1][..i] == due[..i] && due[..i + 1][i] == due[i];
        assert due[i] in due;
        RemindAll(due[i], users, today);
        i := i + 1;
      }
      assert due[..|due|] == due;
    }
  }
}
