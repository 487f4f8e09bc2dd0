# Compass (Nisria) — a verified model of its core

Compass is the back office of the Nisria and Maisha organisations: a Django
backend and a React frontend. This project models its core in Dafny and
proves properties of that model:

- the **recycle bin**: soft deletion of records into tombstones that keep a
  JSON snapshot; restoring, permanent deletion, the super-admin views over
  the bin, and the periodic sweep that purges expired items;
- **grants**: the status hook that opens an expenditure tracker, the usage
  percentage, and the command that expires pending grants whose deadline
  has passed;
- the **task manager**: the permissions, the list query, creation,
  retrieval, updates (an assignee may change only the status and the
  priority), marking a task complete, changing its status, and the
  post-save signal that requests an assignment notification;
- **divisions and programs**: which program names go with which
  division, the roles eligible as leads and maintainers, the way a URL's
  division and program-type segments resolve to a program, the search
  over configured fields, the trainee and trainer endpoints, and the
  page size;
- **notifications**: the task-assignment notification and the daily
  grant-deadline reminders, with their de-duplication;
- **email templates**: who may list, create, view, update, render and
  export templates; employee contracts are reserved to super admins and
  management leads;
- the frontend's **grant forms**: combining and splitting the location,
  validating the create and update forms, loading an existing grant, and
  building the request payloads;
- the **grants table**: status badges, amounts, initials, the
  submitted-by label and the select-all checkbox;
- the dashboard's **grants calendar**: entries filed by date, the month
  grid, navigation between months, the dominant status of a day, and the
  entries of a selected week;
- the dashboard's **task overview**: the badges, the relative due-date
  label, the overdue test and the filtered list.

Each module lives in its own file. `common.dfy`, `strings.dfy`,
`dates.dfy` and `seqs.dfy` are shared helpers. They supply options, roles
and statuses; ASCII case mapping, trimming and JavaScript `split`/`join`;
proleptic Gregorian dates with a day index and weekday; and filtering,
folding and sorting of sequences.

State the backend changes in place is modelled by classes:

- `RecycleBin.Database`: records and tombstones;
- `Grants.Registry`: grants and expenditure trackers;
- `Tasks.TaskBoard`: tasks and the outbox of signal requests;
- `Notifications.NotificationStore`: notifications.

Their methods are proved against functions of the old state. Pure
helpers of the source are functions with lemmas. The loops of the
source are methods with loop invariants:

- the sweep;
- the expiry command;
- the reminder passes;
- the search-query builder;
- the calendar's filing, grid, dominant-status and week loops;
- the form's error recording.

Nondeterministic or external inputs become parameters:

- the current time;
- the serializer's verdict on a request body (`valid`);
- the phone-number check of `libphonenumber` (`phoneValid`);
- the browser's offset from UTC, in minutes (`offsetMinutes`);
- failures during the sweep (`faults`).

## Model

| member | source | states |
|---|---|---|
| RecycleBin.UuidText | nisria-backend/core/models.py:57-59 | a UUID renders in the canonical 8-4-4-4-12 form, 36 characters with dashes at 8, 13, 18 and 23, and without its dashes the text is the UUID's 32 hexadecimal digits |
| RecycleBin.HexDigitsRoundTrip | nisria-backend/core/models.py:57-59 | a number below 16 to the power of the width reads back from its hexadecimal digits |
| RecycleBin.UuidDigits | nisria-backend/core/models.py:57-59 | 32 hexadecimal digits cover exactly the 128-bit UUIDs |
| RecycleBin.UuidTextReadsBack | nisria-backend/core/models.py:57-59 | the digits of a UUID's text read back to that UUID |
| RecycleBin.UuidTextInjective | nisria-backend/core/models.py:57-59 | two UUIDs with the same text are the same UUID, so a tombstone's text names one object |
| RecycleBin.Serialize | nisria-backend/core/models.py:113-139 | the snapshot has an entry for every field except the bookkeeping ones (`is_deleted`, `deleted_at`), and nothing else |
| RecycleBin.ToJson | nisria-backend/core/models.py:121-138 | a related row becomes its key (a UUID key as text), date-times and dates their ISO text, UUIDs and decimals their text; any other value is kept |
| RecycleBin.DecimalText | nisria-backend/core/models.py:133-134 | `str(Decimal)` of a two-place decimal: a minus for negatives, the whole part, a point, two digits |
| RecycleBin.DateTimeText | nisria-backend/core/models.py:129-130 | `isoformat()` of a UTC date-time: the ISO date, "T", two-digit hours, minutes and seconds, microseconds only when non-zero, then "+00:00" |
| RecycleBin.SerializeContents | nisria-backend/core/models.py:113-139 | with distinct field names, each non-bookkeeping field's snapshot entry is that field's value as JSON |
| RecycleBin.SnapshotOfRecord | nisria-backend/core/models.py:113-139 | a record's snapshot holds exactly its own fields with their JSON values and never the soft-delete flags |
| RecycleBin.SerializableData | nisria-backend/core/models.py:113-139 | the field-by-field loop builds exactly the snapshot of the record's fields |
| RecycleBin.SerializeField | nisria-backend/core/models.py:117-138 | one field of the walk: the snapshot grows by that field unless it is a bookkeeping column |
| RecycleBin.ExpiryOnSave | nisria-backend/core/models.py:52-55 | an item saved without an expiry expires 70 days after now; a given expiry is kept |
| RecycleBin.ActualObjectId | nisria-backend/core/models.py:57-59 | the integer slot wins when it is set and non-zero, else the UUID slot; none when both are empty |
| RecycleBin.TombstonePointsBack | nisria-backend/core/models.py:142-152 | a tombstone fills exactly one key slot and points back to the deleted record (except an integer key 0) |
| RecycleBin.Locate | nisria-backend/core/models.py:65-75 | the original is found only when its type is installed and its key is present; then it is that record |
| RecycleBin.ListedOrSwept | nisria-backend/core/views.py:20 | a listed item is neither expired nor a sweep candidate; an unrestored item is either listed or swept, never both |
| RecycleBin.MarkRestored | nisria-backend/core/models.py:161-171 | every open tombstone of the record is stamped restored now; all others are unchanged |
| RecycleBin.RestoreMatchesSoftDelete | nisria-backend/core/models.py:142-171 | the tombstone a soft delete writes is the one that restoring that record stamps, and no other record's |
| RecycleBin.FindItem | nisria-backend/core/views.py:30 | the lookup finds an item with that id passing the filter, or proves none exists |
| RecycleBin.ManagersPartition | nisria-backend/core/models.py:92-100 | the default manager and the archive manager split all records between them |
| RecycleBin.SoftDeleteAndRestore | nisria-backend/core/models.py:103-108 | flagging a record moves it from the default view to the archive with its fields intact; clearing moves it back |
| RecycleBin.HardDeleteActors | nisria-backend/core/models.py:154-159 | a super admin, or a call with no user given, deletes outright; any other user soft-deletes |
| RecycleBin.MarkRestoredValid | nisria-backend/core/models.py:161-171 | restoring keeps the bin's id invariant and never un-restores an item |
| RecycleBin.Candidates | nisria-backend/core/tasks.py:11-14 | the sweep's candidates are exactly the unrestored expired items |
| RecycleBin.SweepRemaining | nisria-backend/core/tasks.py:16-30 | after the sweep an item remains exactly when it was not a candidate or failed |
| RecycleBin.ErasedBySweep | nisria-backend/core/tasks.py:16-28 | the sweep erases only existing records located by some candidate |
| RecycleBin.RemovedBySweep | nisria-backend/core/tasks.py:16-30 | the items removed are exactly the candidates that did not fail |
| RecycleBin.SweepIsIdempotent | nisria-backend/core/tasks.py:9-32 | a sweep without failures leaves no candidates and keeps every non-candidate |
| RecycleBin.SweepKeepsListable | nisria-backend/core/tasks.py:9-32 | a clean sweep keeps exactly the listable and the restored items |
| RecycleBin.SameIdSameRow | nisria-backend/core/models.py:9-47 | tombstone ids are unique in the bin |
| RecycleBin.Database.constructor | nisria-backend/core/models.py:9-47 | an empty bin over the given records satisfies the invariant |
| RecycleBin.Database.SoftDelete | nisria-backend/core/models.py:142-152 | appends a tombstone with the snapshot, flags the record deleted now, and advances the id |
| RecycleBin.Database.Delete | nisria-backend/core/models.py:154-159 | a user who is not a super admin soft-deletes; a super admin, or a call with no user given, removes the record, leaving the bin unchanged |
| RecycleBin.Database.BulkDelete | nisria-backend/core/models.py:78-84 | the queryset delete writes one tombstone per record, in order, or removes them all outright |
| RecycleBin.Database.BulkRestore | nisria-backend/core/models.py:89-90 | clears the flags of the named records and counts those present |
| RecycleBin.Database.HardDelete | nisria-backend/core/models.py:86-87 | removes exactly the named records and leaves the bin alone |
| RecycleBin.Database.Restore | nisria-backend/core/models.py:161-171 | clears the record's flags and stamps its open tombstones restored |
| RecycleBin.Database.ListView | nisria-backend/core/views.py:14-22 | only a super admin sees the list: exactly the listable items, newest first |
| RecycleBin.Database.RestoreView | nisria-backend/core/views.py:24-46 | 403 for non-super-admins; 404 unless a listable item and its original exist; on success the record is back in view and the item is stamped restored by the requester |
| RecycleBin.Database.PermanentDeleteView | nisria-backend/core/views.py:49-66 | 403 for non-super-admins; 404 unless an unrestored item exists; on success the original (if found) and the item are gone |
| RecycleBin.Database.Stamp | nisria-backend/core/views.py:41-43 | only the one tombstone changes: it records the restorer and the time, and the table stays valid |
| RecycleBin.Database.EraseItem | nisria-backend/core/views.py:57-65 | for an unrestored item: its original, if found, is hard-deleted, only that item leaves the table, and restored items stay |
| RecycleBin.Database.Sweep | nisria-backend/core/tasks.py:9-32 | the sweep removes the unfailed candidates and their originals, and counts them |
| RecycleBin.SweepLoop | nisria-backend/core/tasks.py:16-28 | the loop over candidates leaves exactly the specified items, records and count |
| RecycleBin.SweepNext | nisria-backend/core/tasks.py:17-30 | one turn of the loop carries the loop's invariant from the first i candidates to the first i+1 |
| RecycleBin.SweepOne | nisria-backend/core/tasks.py:17-30 | one candidate: its original is erased unless the failure came first; the item goes only if no failure |
| Grants.UsagePercent | nisria-backend/grants/models.py:90-93 | the percentage is amount used over amount value times 100, and 0 when the value is not positive |
| Grants.UsagePercentBounds | nisria-backend/grants/models.py:90-93 | within budget the percentage lies between 0 and 100, reaching 100 exactly when all is used |
| Grants.UsagePercentMonotone | nisria-backend/grants/models.py:90-93 | spending more never lowers the percentage |
| Grants.ExpireAll | nisria-backend/grants/management/commands/expire_pending_grants.py:18-28 | every pending grant whose deadline is before today becomes expired; all else is unchanged |
| Grants.ExpireIdempotent | nisria-backend/grants/management/commands/expire_pending_grants.py:11-34 | running the command twice is the same as once: nothing is left to expire |
| Grants.ExpireOnlyStatus | nisria-backend/grants/management/commands/expire_pending_grants.py:18-28 | only the status changes; non-pending grants, grants without a deadline and grants due today stay as they are |
| Grants.Registry.constructor | nisria-backend/grants/models.py:85-88 | starts with no grants and no trackers |
| Grants.Registry.Save | nisria-backend/grants/models.py:56-79 | stores the grant and opens a tracker exactly on a pending-to-approved transition (a new grant counts as pending) when none exists |
| Grants.Registry.ExpirePending | nisria-backend/grants/management/commands/expire_pending_grants.py:11-34 | the loop expires exactly the expirable grants, keeps the trackers, and reports their number |
| Grants.Registry.ExpireNext | nisria-backend/grants/management/commands/expire_pending_grants.py:26-27 | saving one more expirable grant as expired extends the expired set by its id and keeps the trackers |
| Grants.FreshExpenditureUnused | nisria-backend/grants/models.py:87 | a new tracker reports 0% used |
| Grants.AppliedThenApprovedOpensNoTracker | nisria-backend/grants/models.py:78-79 | only a grant that was pending opens a tracker when approved; applied then approved does not |
| Tasks.ParseStatus | nisria-backend/task_manager/views.py:158-161 | a code is accepted exactly when it is some status's stored code |
| Tasks.StatusCodeRoundTrip | nisria-backend/task_manager/models.py:6-11 | every status's code parses back to it |
| Tasks.ObjectPermissionCases | nisria-backend/task_manager/permissions.py:19-26 | anonymous users have no access; managers have all; others have access exactly to tasks assigned to them |
| Tasks.HasObjectPermission | nisria-backend/task_manager/permissions.py:19-26 | an authenticated requester who is the task's assignee or a manager |
| Tasks.MatchesFilters | nisria-backend/task_manager/views.py:39-58 | status, priority and due date compared exactly when given; the assignee filter applies only to managers |
| Tasks.ForbiddenFields | nisria-backend/task_manager/views.py:99-114 | a plain assignee may send only status and priority; the forbidden part is what else they sent |
| Tasks.ListTasks | nisria-backend/task_manager/views.py:15-63 | the list holds exactly the tasks in the requester's scope that match the search and every given filter, as a subsequence of the table, so in the table's newest-first order (`ordering = ['-created_at']`) |
| Tasks.ScopeAndSearch | nisria-backend/task_manager/views.py:19-37 | the tasks of the requester's scope that match the search, in table order |
| Tasks.ExactFilters | nisria-backend/task_manager/views.py:39-58 | the tasks that pass every given exact filter, in table order; the assignee filter applies only to managers |
| Tasks.ListTasksScope | nisria-backend/task_manager/views.py:19-29 | non-managers only ever see their own tasks; managers without parameters see all |
| Tasks.SignalOnSave | nisria-backend/task_manager/signals.py:6-27 | a notification is requested exactly when the task has an assignee and is created or saved with `assigned_to` among the updated fields |
| Tasks.FullAndStatusSavesNeverNotify | nisria-backend/task_manager/signals.py:12-21 | full saves and status saves never notify, nor does any save of an unassigned task |
| Tasks.FindTask | nisria-backend/task_manager/views.py:77 | finds a task with that id or proves there is none |
| Tasks.TaskBoard.constructor | nisria-backend/task_manager/views.py:65-72 | no tasks, no requests |
| Tasks.TaskBoard.Signal | nisria-backend/task_manager/signals.py:6-27 | appends the signal's request, if any, to the outbox |
| Tasks.TaskBoard.CreateTask | nisria-backend/task_manager/views.py:65-72 | 403 for non-managers, 400 for invalid data; otherwise the new task is stored first with the next id, the requester as assigner and never as a grant follow-up, and the signal runs |
| Tasks.NewTask | nisria-backend/task_manager/views.py:67-72 | the created task has the new id, the requester as assigner, `is_grant_follow_up_task` false (read-only, model default), and every writable field (title, description, assigned_to, status, priority, due_date, grant) from the validated draft |
| Tasks.TaskBoard.Retrieve | nisria-backend/task_manager/views.py:74-85 | 404 for a missing task; 403 without object permission; otherwise that task |
| Tasks.TaskBoard.UpdateTask | nisria-backend/task_manager/views.py:87-121 | 404 exactly for a signed-in requester and a missing task; 403 exactly for an anonymous requester, or a found task without object permission or with forbidden fields; 400 exactly when those pass and the data is invalid; otherwise 200, and only then does the stored task take the patched value, nothing else changing |
| Tasks.Patched | nisria-backend/task_manager/views.py:116-119 | every writable field (title, description, assigned_to, status, priority, due_date, grant) the request sent takes the sent value; every unsent one and every read-only field (id, assigned_by, is_grant_follow_up_task) keeps the stored one |
| Tasks.WritableFields | nisria-backend/task_manager/serializers.py:20-46 | the writable fields are exactly the serializer's fields less its read-only ones, `grant` among them |
| Tasks.TakesSentFields | nisria-backend/task_manager/views.py:116-119 | a task built field by field from the sent and stored values agrees with the sent one on every sent writable field and with the stored one elsewhere |
| Tasks.PatchedUnsentAndRepeat | nisria-backend/task_manager/views.py:116-119 | an empty request changes nothing, and repeating a request is idempotent |
| Tasks.AssigneeChangesOnlyStatusAndPriority | nisria-backend/task_manager/views.py:99-119 | an assignee who is not a manager and passes the forbidden-field check changes at most the status and the priority |
| Tasks.TaskBoard.MarkComplete | nisria-backend/task_manager/views.py:132-145 | any user may complete a found task; an already completed task gives 400 |
| Tasks.TaskBoard.ChangeStatus | nisria-backend/task_manager/views.py:147-166 | a missing or unknown status gives 400; a valid one is stored and reads back as sent |
| Tasks.TaskBoard.List | nisria-backend/task_manager/views.py:13-63 | the endpoint's list is drawn from the stored tasks and exists for any signed-in user |
| Divisions.ValidateProgram | nisria-backend/divisions/serializers.py:50-83 | with both fields sent, education, microfund and rescue pass only under nisria, vocational only under maisha, any other name always; a field left out of an update is taken from the stored program; an unknown name or division, or an empty name, passes |
| Divisions.PairingByName | nisria-backend/divisions/serializers.py:67-79 | education, microfund and rescue need Nisria; vocational needs Maisha; other names pass under either |
| Divisions.UpdateUsesInstance | nisria-backend/divisions/serializers.py:53-61 | a partial update is judged by the stored name and division, or by the newly sent division |
| Divisions.AcceptUsers | nisria-backend/divisions/serializers.py:12-18 | a list of users is accepted exactly when every user's role is eligible |
| Divisions.AcceptUsersAppend | nisria-backend/divisions/serializers.py:12-18 | two lists together are accepted exactly when each is |
| Divisions.AcceptUsersMonotone | nisria-backend/divisions/serializers.py:12-18 | a list accepted under a stricter eligibility is accepted under a laxer one |
| Divisions.EligibleRoles | nisria-backend/divisions/serializers.py:12-38 | every role may maintain; only managers may lead; admins and grant officers may not lead |
| Divisions.MicroFundSerializer.MissingFieldCheck | nisria-backend/divisions/serializers.py:135-141 | `chama_group` may be left out only on updates or partial requests |
| Divisions.ValidateChamaGroup | nisria-backend/divisions/serializers.py:135-141 | a serializer built with or without an instance accepts a request exactly when it sends `chama_group`, is partial, or updates an instance; a full create must send it |
| Divisions.ResolveProgramDetail | nisria-backend/divisions/views.py:97-127 | a URL resolves exactly when the program type is configured, the division segment is its home, and both the division and the program exist |
| Divisions.ProgramDetailMetadata | nisria-backend/divisions/views.py:35-85 | the five configured program types, each with its home division, its search fields and its program name; any other type has none |
| Divisions.ResolveIgnoresCase | nisria-backend/divisions/views.py:101-108 | resolution does not depend on the case of the URL segments |
| Divisions.ResolutionCases | nisria-backend/divisions/views.py:35-85 | vocational types resolve to Maisha's vocational program, the others to Nisria; unknown types never resolve |
| Divisions.BuildSearchQuery | nisria-backend/divisions/views.py:216-220 | the OR-query matches a row exactly when some configured field contains the term, ignoring case |
| Divisions.Search | nisria-backend/divisions/views.py:214-220 | without a term or fields the rows are kept; otherwise exactly the hits are kept, in order |
| Divisions.TraineeProgram | nisria-backend/divisions/views.py:349-367 | trainee listing requires the vocational type and resolves to Maisha's vocational program |
| Divisions.NestedTrainer | nisria-backend/divisions/views.py:406-419 | the nested trainee endpoints need the Maisha division, its vocational program and a trainer of it |
| Divisions.TrainerForDetail | nisria-backend/divisions/views.py:441-449 | the trainee detail endpoint needs the division's vocational program and a trainer of it |
| Divisions.TraineeDetailNeedsMaisha | nisria-backend/divisions/views.py:406-449 | when every program obeys the pairing rule, the detail endpoint accepts exactly what the nested list accepts |
| Divisions.PageSize | nisria-backend/divisions/views.py:91-94 | the page size is 10 by default, the requested positive number otherwise, capped at 100 |
| Divisions.PageSizeOfRendered | nisria-backend/divisions/views.py:91-94 | asking for n gives n when 0 < n < 100, 100 above, 10 for 0 |
| Notifications.AssignerLabelIsNoneNone | nisria-backend/notifications/tasks.py:66 | as written, an assigner without first and last name (as every user is stored) is labelled "None None" |
| Notifications.AssignerLabel | nisria-backend/notifications/tasks.py:66 | the assigner is named by the full name, or by the email when that is empty |
| Notifications.AssignmentMessageWith | nisria-backend/notifications/tasks.py:64-68 | the message names the task and, when there is one, the assigner |
| Notifications.AssignmentNotification | nisria-backend/notifications/tasks.py:53-85 | a notification is created exactly when the task, the recipient and any assigner exist; it goes to the assignee with the task's link |
| Notifications.AssignmentAsWrittenNamesNobody | nisria-backend/notifications/tasks.py:53-85 | as written, the message says "by None None." whenever there is an assigner |
| Notifications.AssignmentWithoutAssignerAgrees | nisria-backend/notifications/tasks.py:64-68 | without an assigner, the code as written and the corrected one agree |
| Notifications.GetFullName | nisria-backend/notifications/tasks.py:66 | `get_full_name()`: first name, a space and last name, trimmed, a missing name printing as "None" |
| Notifications.AssignerLabelAsWritten | nisria-backend/notifications/tasks.py:66 | as written: `get_full_name() or email` |
| Notifications.AssignmentNotificationAsWritten | nisria-backend/notifications/tasks.py:53-85 | as written: built when the task, the recipient and any assigner exist, naming the assigner by the label as written |
| Notifications.ReminderMessage | nisria-backend/notifications/tasks.py:110-111 | "Reminder: Grant '<name>' deadline is in <days> day(s) on <YYYY-MM-DD>." |
| Notifications.ReminderFor | nisria-backend/notifications/tasks.py:111-122 | a deadline reminder to the user, with that message, the link /grants/<id>/ and today's date |
| Notifications.DaysLeftRange | nisria-backend/notifications/tasks.py:97-110 | a grant due for a reminder has between 0 and 7 days left |
| Notifications.HasReminderGrows | nisria-backend/notifications/tasks.py:116-121 | a reminder, once sent, stays sent |
| Notifications.StepProps | nisria-backend/notifications/tasks.py:116-123 | one user step adds at most one reminder, leaves the user reminded, and keeps reminders unique |
| Notifications.UsersAppend | nisria-backend/notifications/tasks.py:114-124 | the user loop only appends, and only reminders of this grant to these users |
| Notifications.UsersCover | nisria-backend/notifications/tasks.py:114-124 | after the user loop every user has today's reminder for the grant |
| Notifications.UsersIdleAndUnique | nisria-backend/notifications/tasks.py:114-124 | when everyone already has one nothing is added, and no user gets two |
| Notifications.GrantsAppend | nisria-backend/notifications/tasks.py:109-124 | the grant loop only appends reminders of due grants to active users |
| Notifications.GrantsCover | nisria-backend/notifications/tasks.py:109-124 | every due grant is reminded to every active user |
| Notifications.GrantsIdleAndUnique | nisria-backend/notifications/tasks.py:109-124 | rerunning on the same day adds nothing, and no reminder is duplicated |
| Notifications.NoUsersNoReminders | nisria-backend/notifications/tasks.py:104-107 | without active users nothing is sent |
| Notifications.DueGrants | nisria-backend/notifications/tasks.py:97-102 | the due grants are exactly the pending ones with a deadline from today to seven days ahead |
| Notifications.PassProps | nisria-backend/notifications/tasks.py:88-125 | the daily pass appends only due reminders, covers every due grant and active user, is idempotent and keeps reminders unique |
| Notifications.NotificationStore.constructor | nisria-backend/notifications/tasks.py:72-77 | starts empty |
| Notifications.NotificationStore.NotifyAssignment | nisria-backend/notifications/tasks.py:53-85 | appends the corrected assignment notification (the assigner named by full name, falling back to the email; see Findings) when it can be built, nothing otherwise; as written, tasks.py:66 names the assigner "None None" (AssignmentNotificationAsWritten) |
| Notifications.NotificationStore.Remind | nisria-backend/notifications/tasks.py:116-123 | one user step of the reminder pass |
| Notifications.NotificationStore.RemindAll | nisria-backend/notifications/tasks.py:114-124 | the user loop of one grant |
| Notifications.NotificationStore.CheckGrantDeadlines | nisria-backend/notifications/tasks.py:88-125 | the whole daily pass over the due grants and active users |
| Notifications.NotificationStore.RemindEach | nisria-backend/notifications/tasks.py:109-124 | the loop over the due grants runs the user loop for each in turn |
| EmailTemplates.ListTemplates | nisria-backend/email_templates/views.py:25-40 | signed-in users get the templates they may handle, newest first; privileged users get all of them |
| EmailTemplates.CreateTemplate | nisria-backend/email_templates/views.py:42-55 | creating succeeds exactly for a signed-in user allowed the requested type with valid data; contracts need privilege |
| EmailTemplates.ViewTemplate | nisria-backend/email_templates/views.py:61-72 | 404 for a missing template; viewing an employee contract needs privilege |
| EmailTemplates.UpdateTemplate | nisria-backend/email_templates/views.py:74-84 | denied unless the user may handle both the current and the requested type; then succeeds with valid data |
| EmailTemplates.RenderOrExport | nisria-backend/email_templates/views.py:89-130 | rendering and exporting need privilege only for employee contracts |
| EmailTemplates.ContractsReserved | nisria-backend/email_templates/views.py:21-130 | unprivileged users can neither see, create, view, update, render nor export an employee contract; privileged users are never denied |
| GrantForms.Combine | nisria-frontend/src/components/grants/GrantFormUpdate.jsx:166-167 | "country - region" when both are given, otherwise whichever is given |
| GrantForms.SplitLocation | nisria-frontend/src/components/grants/GrantFormUpdate.jsx:116-120 | a location without " - " is all country and no region; otherwise the country is the text before the first " - " and the region everything after it |
| GrantForms.StraddlingSeparator | nisria-frontend/src/components/grants/GrantFormUpdate.jsx:116-120 | an occurrence of the separator across the joint forces the country to end in " -" |
| GrantForms.SeparatorAfterCountry | nisria-frontend/src/components/grants/GrantFormUpdate.jsx:116-120 | for a dash-clean country the first separator is the one that was inserted |
| GrantForms.SplitCombine | nisria-frontend/src/components/grants/GrantFormUpdate.jsx:116-120 | splitting a combined location gives back the country and region |
| GrantForms.CombineSplit | nisria-frontend/src/components/grants/GrantFormUpdate.jsx:166-167 | combining the two parts of a split gives back the location |
| GrantForms.DigitRun | nisria-frontend/src/components/grants/GrantForm.jsx:226-231 | the longest run of leading digits |
| GrantForms.NonZeroDigits | nisria-frontend/src/components/grants/GrantForm.jsx:226-231 | digits reading as a positive number contain a non-zero digit |
| GrantForms.WholeAmountAccepted | nisria-frontend/src/components/grants/GrantForm.jsx:226-231 | every whole number of units passes the amount check |
| GrantForms.NegativeAmountRejected | nisria-frontend/src/components/grants/GrantForm.jsx:226-231 | negative amounts are rejected |
| GrantForms.NonNumericAmountsRejected | nisria-frontend/src/components/grants/GrantForm.jsx:219-231 | text, a bare sign and an empty amount are rejected |
| GrantForms.EmailExamples | nisria-frontend/src/components/grants/GrantForm.jsx:243-246 | the email pattern wants something, an "@", something, a dot, something |
| GrantForms.EmailLike | nisria-frontend/src/components/grants/GrantForm.jsx:245 | `\S+@\S+\.\S+` matches somewhere: non-space text, "@", non-space text, ".", non-space text |
| GrantForms.LinkLike | nisria-frontend/src/components/grants/GrantForm.jsx:261 | `^https?://.+`: "http://" or "https://" followed by a character that is not a line terminator |
| GrantForms.ParseFloatSign | nisria-frontend/src/components/grants/GrantForm.jsx:228-229 | `parseFloat` as validation reads it: nothing for NaN, otherwise whether the number is below zero |
| GrantForms.CreateRulesStricter | nisria-frontend/src/components/grants/GrantForm.jsx:207-279 | the create form's rules are the update form's plus the length limits |
| GrantForms.NameMessage | nisria-frontend/src/components/grants/GrantForm.jsx:209-212 | no message exactly when the name is acceptable |
| GrantForms.CurrencyMessage | nisria-frontend/src/components/grants/GrantForm.jsx:214-217 | no message exactly when the currency is given (and, on create, at most 10 characters) |
| GrantForms.AmountMessage | nisria-frontend/src/components/grants/GrantForm.jsx:219-231 | no message exactly when the amount is acceptable |
| GrantForms.PhoneMessage | nisria-frontend/src/components/grants/GrantForm.jsx:233-241 | no message exactly when the phone is empty or valid and short enough |
| GrantForms.EmailMessage | nisria-frontend/src/components/grants/GrantForm.jsx:243-248 | no message exactly for a present, email-like address (at most 254 characters on create) |
| GrantForms.LocationMessage | nisria-frontend/src/components/grants/GrantForm.jsx:250-253 | a missing country is reported first, then a missing region |
| GrantForms.OrganizationTypeMessage | nisria-frontend/src/components/grants/GrantForm.jsx:255-256 | no message exactly when a type is chosen |
| GrantForms.LinkMessage | nisria-frontend/src/components/grants/GrantForm.jsx:259-267 | an empty link passes; otherwise it must look like a URL (and, on create, fit 200 characters) |
| GrantForms.DatesMessage | nisria-frontend/src/components/grants/GrantForm.jsx:269-275 | no message exactly when the award date is after the deadline or either is missing |
| GrantForms.UpdateChecksMeanRules | nisria-frontend/src/components/grants/GrantFormUpdate.jsx:184-210 | the update form's checks pass exactly when its rules hold |
| GrantForms.CreateChecksMeanRules | nisria-frontend/src/components/grants/GrantForm.jsx:207-279 | the create form's checks pass exactly when its rules hold |
| GrantForms.RecordThree | nisria-frontend/src/components/grants/GrantForm.jsx:207-279 | records three fields' messages, touches no other key, and writes nothing when all three pass |
| GrantForms.RecordRest | nisria-frontend/src/components/grants/GrantForm.jsx:207-279 | records the contact, location, type, link and date messages, touches no other key, and writes nothing when all of them pass |
| GrantForms.RecordMessages | nisria-frontend/src/components/grants/GrantForm.jsx:207-279 | each field's message is recorded under its key; the map is empty exactly when there is no message |
| GrantForms.RunChecks | nisria-frontend/src/components/grants/GrantForm.jsx:207-279 | no check yields a message exactly when the form passes |
| GrantForms.ValidateForm | nisria-frontend/src/components/grants/GrantForm.jsx:207-279 | the errors hold each field's message, and the form is valid exactly when they are empty and its rules hold |
| GrantForms.BeforeT | nisria-frontend/src/components/grants/GrantFormUpdate.jsx:136-137 | the text before the first "T", or all of it when there is none; the result contains no "T" |
| GrantForms.BeforeTExamples | nisria-frontend/src/components/grants/GrantFormUpdate.jsx:136-137 | an ISO date, with or without a time, loads as the date |
| GrantForms.LoadGrant | nisria-frontend/src/components/grants/GrantFormUpdate.jsx:112-144 | without a grant the form is the initial one; with one, every text field is the grant's value or its default, the type and status are lower-cased with defaults "normal" and "pending", the country and region split the location, and a given date is cut at its "T" |
| GrantForms.FieldOr | nisria-frontend/src/components/grants/GrantFormUpdate.jsx:125-138 | `value \|\| fallback`: the grant's value when present and non-empty, otherwise the fallback |
| GrantForms.LoadShowsSaved | nisria-frontend/src/components/grants/GrantFormUpdate.jsx:112-139 | a grant whose location was combined from a country and a region, with a deadline saved as a date and a time, loads back that country, that region and that date |
| GrantForms.NullIfEmpty | nisria-frontend/src/components/grants/GrantForm.jsx:294-299 | an empty text is sent as null, any other as itself |
| GrantForms.UpdatePayload | nisria-frontend/src/components/grants/GrantFormUpdate.jsx:217-224 | the update payload nulls the link, notes and dates when empty and sends the rest as they are |
| GrantForms.CreatePayload | nisria-frontend/src/components/grants/GrantForm.jsx:287-302 | the create payload also nulls an empty program and an empty phone |
| GrantForms.PayloadsDiffer | nisria-frontend/src/components/grants/GrantForm.jsx:294-297 | the two payloads differ only in the program and the phone |
| GrantForms.SubmitUpdate | nisria-frontend/src/components/grants/GrantFormUpdate.jsx:212-227 | sends the update payload exactly when the form is valid and the grant has an id |
| GrantForms.SubmitCreate | nisria-frontend/src/components/grants/GrantForm.jsx:281-305 | sends the create payload exactly when the form is valid |
| GrantsTable.StatusColor | nisria-frontend/src/components/grants/GrantsTable.jsx:19-28 | each known status, ignoring case, has its own badge; anything else is gray |
| GrantsTable.StatusColorIgnoresCase | nisria-frontend/src/components/grants/GrantsTable.jsx:27 | the badge does not depend on the case of the status |
| GrantsTable.CurrencyDisplay | nisria-frontend/src/components/grants/GrantsTable.jsx:30-38 | "N/A" exactly when there is no value or it does not parse; otherwise a throw exactly when the currency (USD by default) is not three letters, else the number in that currency, upper-cased |
| GrantsTable.AcceptedAmountsShown | nisria-frontend/src/components/grants/GrantsTable.jsx:30-38 | an amount the grant form accepts is shown as a number exactly when the currency is missing, empty or three letters, and throws otherwise |
| GrantsTable.WholeAmountInDollars | nisria-frontend/src/components/grants/GrantsTable.jsx:30-38 | a whole amount without a currency is shown in USD, a lower-case code upper-cased; "Ksh." throws; text that is no number is "N/A" |
| GrantsTable.WholeAmountShownIn | nisria-frontend/src/components/grants/GrantsTable.jsx:30-38 | a whole amount in a three-letter currency, or none, is shown in that currency (USD by default) upper-cased |
| GrantsTable.CurrencyOrUsd | nisria-frontend/src/components/grants/GrantsTable.jsx:33 | `currency \|\| 'USD'` |
| GrantsTable.WellFormedCurrency | nisria-frontend/src/components/grants/GrantsTable.jsx:31-37 | the codes `Intl.NumberFormat` accepts: three ASCII letters |
| GrantsTable.FormAcceptsUnshownCurrency | nisria-frontend/src/components/grants/GrantsTable.jsx:30-38 | "Ksh." passes the grant form's currency check and throws in the amount cell |
| GrantsTable.ProgramDisplay | nisria-frontend/src/components/grants/GrantsTable.jsx:206 | the program name is shown unless missing or a leaked method wrapper |
| GrantsTable.LeakedMethodHidden | nisria-frontend/src/components/grants/GrantsTable.jsx:206 | a name containing `<method-wrapper` is never shown |
| GrantsTable.Words | nisria-frontend/src/components/grants/GrantsTable.jsx:56 | the words are the non-empty pieces between spaces |
| GrantsTable.Initials | nisria-frontend/src/components/grants/GrantsTable.jsx:54-60 | "N/A" for a missing or blank name or one without words; one word gives its first two characters (or its only one) upper-cased; two or more words give the upper-cased first letters of the first two; at most three characters with no lowercase letters |
| GrantsTable.TwoWordSplit | nisria-frontend/src/components/grants/GrantsTable.jsx:56 | two space-free words joined by a space split back into those words |
| GrantsTable.TwoWordInitials | nisria-frontend/src/components/grants/GrantsTable.jsx:59 | two words give their capitalised first letters |
| GrantsTable.OneWordInitials | nisria-frontend/src/components/grants/GrantsTable.jsx:58 | one word gives its first two characters, capitalised |
| GrantsTable.SpacesSplitEmpty | nisria-frontend/src/components/grants/GrantsTable.jsx:56-57 | a name of spaces has no words |
| GrantsTable.BlankNameInitials | nisria-frontend/src/components/grants/GrantsTable.jsx:57 | a name of spaces gives "N/A" |
| GrantsTable.SubmitterOf | nisria-frontend/src/components/grants/GrantsTable.jsx:65 | the name is the trimmed first part or "N/A"; the role is the trimmed second part or empty |
| GrantsTable.ParseSubmittedByAsWritten | nisria-frontend/src/components/grants/GrantsTable.jsx:62-66 | as written, splitting on a tab and a dash |
| GrantsTable.SubmittedByAsWrittenKeepsRole | nisria-frontend/src/components/grants/GrantsTable.jsx:64 | as written, a stored "name - role" label shows as a name that includes the role, with no role |
| GrantsTable.ParseSubmittedBy | nisria-frontend/src/components/grants/GrantsTable.jsx:62-66 | splitting on the separator the backend writes |
| GrantsTable.DashFreeNoSeparator | nisria-frontend/src/components/grants/GrantsTable.jsx:64 | a text without dashes contains no separator |
| GrantsTable.ParseUserLabel | nisria-backend/accounts/models.py:63-64 | a user's label parses back into the trimmed full name and role |
| GrantsTable.UserLabel | nisria-backend/accounts/models.py:63-64 | `User.__str__`: the full name, " - ", the role |
| GrantsTable.DistinctCard | nisria-frontend/src/components/grants/GrantsTable.jsx:118 | a list without repeats has as many elements as its set |
| GrantsTable.SelectAllChecked | nisria-frontend/src/components/grants/GrantsTable.jsx:118 | the box is checked when the page has rows and the selection counts as many ids as the page |
| GrantsTable.SelectAllMeansEveryRow | nisria-frontend/src/components/grants/GrantsTable.jsx:118 | for distinct ids: with the selection inside the page, the box is checked exactly when the page is non-empty and every row is selected; with every row selected, it is checked exactly when nothing off the page is |
| GrantsTable.SelectAllCheckedOffPage | nisria-frontend/src/components/grants/GrantsTable.jsx:118-124 | a selection of as many ids from another page checks the box and reads "n of n selected" while no row of the page is selected |
| GrantsTable.SecondPageShowsAllSelected | nisria-frontend/src/components/grants/GrantsTable.jsx:118-124 | ten grants selected on one page leave the box of the next ten checked |
| GrantsCalendar.StyleFor | nisria-frontend/src/components/dashboard/GrantsCalendar.jsx:26-47 | each status, ignoring case, has its style; anything else is styled pending |
| GrantsCalendar.DeadlineEntries | nisria-frontend/src/components/dashboard/GrantsCalendar.jsx:73-78 | one deadline entry per grant with a deadline, and only those |
| GrantsCalendar.AwardEntries | nisria-frontend/src/components/dashboard/GrantsCalendar.jsx:79-84 | one award entry per grant with an award date, and only those |
| GrantsCalendar.GroupSpec | nisria-frontend/src/components/dashboard/GrantsCalendar.jsx:69-87 | a date has a group exactly when some entry falls on it, and the group is those entries in order |
| GrantsCalendar.EntriesWellFormed | nisria-frontend/src/components/dashboard/GrantsCalendar.jsx:69-87 | every filed entry carries the style of its kind: an award entry the award style, a deadline entry the style of its grant's status (StyleFor) |
| GrantsCalendar.FileDeadlines | nisria-frontend/src/components/dashboard/GrantsCalendar.jsx:73-78 | the first loop files exactly the deadline entries by date |
| GrantsCalendar.FileAwards | nisria-frontend/src/components/dashboard/GrantsCalendar.jsx:79-84 | the second loop adds exactly the award entries after them |
| GrantsCalendar.FileEntry | nisria-frontend/src/components/dashboard/GrantsCalendar.jsx:75-76 | filing one entry appends it to its date's group, creating the group when the date is new |
| GrantsCalendar.FileAward | nisria-frontend/src/components/dashboard/GrantsCalendar.jsx:80-83 | one award is filed after the earlier ones exactly when it has an award date |
| GrantsCalendar.AwardKeyStyle | nisria-frontend/src/components/dashboard/GrantsCalendar.jsx:83 | an award entry is styled with the entry of the key "award" |
| GrantsCalendar.GrantsByDate | nisria-frontend/src/components/dashboard/GrantsCalendar.jsx:69-87 | the month's entries grouped by date, deadlines before awards |
| GrantsCalendar.CalendarDays | nisria-frontend/src/components/dashboard/GrantsCalendar.jsx:89-100 | blanks up to the weekday of the first, then each day of the month in order |
| GrantsCalendar.ColumnIsWeekday | nisria-frontend/src/components/dashboard/GrantsCalendar.jsx:89-100 | each day's column is its weekday |
| GrantsCalendar.ShiftMonth | nisria-frontend/src/components/dashboard/GrantsCalendar.jsx:102-108 | moves to the first day of the month that many months away |
| GrantsCalendar.ShiftBack | nisria-frontend/src/components/dashboard/GrantsCalendar.jsx:102-108 | going forward and back returns to the first of the month |
| GrantsCalendar.NavigateMonth | nisria-frontend/src/components/dashboard/GrantsCalendar.jsx:102-108 | navigating clears the selected week |
| GrantsCalendar.NatToStringAtLeast | nisria-frontend/src/components/dashboard/GrantsCalendar.jsx:112 | a number at least 10^k has more than k digits |
| GrantsCalendar.DayKeyIsIsoDate | nisria-frontend/src/components/dashboard/GrantsCalendar.jsx:112 | from year 1000 on, the day key is the ISO date the entries are filed under |
| GrantsCalendar.GrantsForDate | nisria-frontend/src/components/dashboard/GrantsCalendar.jsx:110-114 | no day gives nothing; a day gives the entries filed under its key, or nothing when the key is not filed |
| GrantsCalendar.DayKey | nisria-frontend/src/components/dashboard/GrantsCalendar.jsx:112 | the year, then month and day padded to two digits, joined by "-" |
| GrantsCalendar.GrantsForDateFiled | nisria-frontend/src/components/dashboard/GrantsCalendar.jsx:69-114 | a day's entries are exactly the month's entries on that date |
| GrantsCalendar.FindMatch | nisria-frontend/src/components/dashboard/GrantsCalendar.jsx:127 | finds the first entry of that priority, or proves none |
| GrantsCalendar.DominantStatus | nisria-frontend/src/components/dashboard/GrantsCalendar.jsx:118-132 | the style of the highest-priority kind present that day, none for an empty day |
| GrantsCalendar.Dominant | nisria-frontend/src/components/dashboard/GrantsCalendar.jsx:125-131 | the style of the first entry matching the earliest priority any entry matches; the first entry's style when none does |
| GrantsCalendar.AwardWins | nisria-frontend/src/components/dashboard/GrantsCalendar.jsx:125-128 | an award on the day outranks everything |
| GrantsCalendar.ApprovedNext | nisria-frontend/src/components/dashboard/GrantsCalendar.jsx:125-128 | without an award an approved deadline decides |
| GrantsCalendar.WeekStart | nisria-frontend/src/components/dashboard/GrantsCalendar.jsx:135-141 | the Sunday on or before the date |
| GrantsCalendar.WeekEntriesSpec | nisria-frontend/src/components/dashboard/GrantsCalendar.jsx:144-157 | the week's entries are those filed under its dates, day by day |
| GrantsCalendar.SortWeekAsWritten | nisria-frontend/src/components/dashboard/GrantsCalendar.jsx:158-165 | as written: sorted by deadline-or-award date |
| GrantsCalendar.WeekOrderAsWrittenMisplacesAwards | nisria-frontend/src/components/dashboard/GrantsCalendar.jsx:159-160 | as written, an award can be listed before an earlier deadline |
| GrantsCalendar.MisplacedAward | nisria-frontend/src/components/dashboard/GrantsCalendar.jsx:159-160 | for any early deadline, middle deadline and late award, the comparator as written puts the late award first |
| GrantsCalendar.GrantsForSelectedWeek | nisria-frontend/src/components/dashboard/GrantsCalendar.jsx:144-167 | the week's entries, a permutation of those filed, in order of each entry's own date |
| GrantsCalendar.EntryOrder | nisria-frontend/src/components/dashboard/GrantsCalendar.jsx:158-165 | corrected sort key: the entry's own date, a deadline before an award on the same date |
| GrantsCalendar.EntryOrderAsWritten | nisria-frontend/src/components/dashboard/GrantsCalendar.jsx:158-165 | as written: `application_deadline \|\| award_date`, then a deadline before an award |
| GrantsCalendar.UtcDay | nisria-frontend/src/components/dashboard/GrantsCalendar.jsx:150-152 | as written: the date `toISOString` gives for local midnight, which is the previous day in a zone ahead of UTC and the same day otherwise |
| GrantsCalendar.WeekDays | nisria-frontend/src/components/dashboard/GrantsCalendar.jsx:149-151 | the loop visits exactly `n` days, day `i` being `i` days after the start |
| GrantsCalendar.UtcDays | nisria-frontend/src/components/dashboard/GrantsCalendar.jsx:149-152 | as written: entry `i` is the UTC date of local midnight on day `i` of the week |
| GrantsCalendar.WeekEntriesAsWritten | nisria-frontend/src/components/dashboard/GrantsCalendar.jsx:147-156 | as written: the entries filed under the UTC dates of the week's days (no contract of its own; its meaning is fixed by the two lemmas below) |
| GrantsCalendar.WeekIsCollect | nisria-frontend/src/components/dashboard/GrantsCalendar.jsx:147-156 | the intended week gathers the entries filed under each local day of the week, in order |
| GrantsCalendar.WestDays | nisria-frontend/src/components/dashboard/GrantsCalendar.jsx:150-152 | at UTC or west of it, the UTC dates of local midnights are the local days themselves |
| GrantsCalendar.EastDays | nisria-frontend/src/components/dashboard/GrantsCalendar.jsx:150-152 | east of UTC, the UTC dates are the days of the week that starts one day earlier |
| GrantsCalendar.EastDayBefore | nisria-frontend/src/components/dashboard/GrantsCalendar.jsx:150-152 | the day before day `i` of a week is day `i` of the week that starts one day earlier |
| GrantsCalendar.WeekKeysAgreeWest | nisria-frontend/src/components/dashboard/GrantsCalendar.jsx:147-156 | at UTC or west of it the loop as written gathers the intended week |
| GrantsCalendar.WeekKeysShiftEast | nisria-frontend/src/components/dashboard/GrantsCalendar.jsx:147-156 | east of UTC it gathers the week that starts one day earlier |
| GrantsCalendar.WeekAsWrittenMissesLastDay | nisria-frontend/src/components/dashboard/GrantsCalendar.jsx:147-156 | east of UTC an entry on the last day of the selected week is missing from the list as written |
| GrantsCalendar.NairobiWeekMissesSaturday | nisria-frontend/src/components/dashboard/GrantsCalendar.jsx:147-156 | in Nairobi (UTC+3), the week of Sunday 2024-03-10 leaves out a deadline on Saturday 2024-03-16 and lists one on Saturday 2024-03-09 |
| GrantsCalendar.WeekAsWrittenShowsDayBefore | nisria-frontend/src/components/dashboard/GrantsCalendar.jsx:147-156 | east of UTC an entry on the day before the selected week is listed as written |
| GrantsCalendar.WeekInDateOrder | nisria-frontend/src/components/dashboard/GrantsCalendar.jsx:158-165 | in the corrected order no entry is listed before an earlier one |
| Seqs.SortByStable | nisria-frontend/src/components/dashboard/GrantsCalendar.jsx:158-165 | the sort, like `Array.prototype.sort`, keeps the elements of one key in their original order |
| TaskOverview.PriorityConfigFor | nisria-frontend/src/components/dashboard/TasksSection.jsx:24-46 | high and low, ignoring case, have their badges; everything else is medium |
| TaskOverview.StatusConfigAsWritten | nisria-frontend/src/components/dashboard/TasksSection.jsx:49-71 | as written, the in-progress badge is keyed "in-progress" |
| TaskOverview.InProgressBadgeAsWritten | nisria-frontend/src/components/dashboard/TasksSection.jsx:57 | as written, an in-progress task is badged "To Do" |
| TaskOverview.StatusConfigFor | nisria-frontend/src/components/dashboard/TasksSection.jsx:49-71 | in-progress and completed, ignoring case, have their badges; the rest is To Do |
| TaskOverview.StoredStatusesBadged | nisria-backend/task_manager/models.py:6-11 | todo, in-progress and completed tasks each get their own badge |
| TaskOverview.FormatDue | nisria-frontend/src/components/dashboard/TasksSection.jsx:74-97 | for the due day read as a local date: today, yesterday, tomorrow and up to six days either way are relative; other dates are absolute, with the year only when it differs |
| TaskOverview.RelativeLabels | nisria-frontend/src/components/dashboard/TasksSection.jsx:86-90 | 2 to 6 days ahead reads "in n days", behind "n days ago" |
| TaskOverview.IsOverdue | nisria-frontend/src/components/dashboard/TasksSection.jsx:100-107 | for the due day read as a local date: overdue exactly when there is a due date, the task is not completed and the day has passed |
| TaskOverview.DueTodayNotOverdue | nisria-frontend/src/components/dashboard/TasksSection.jsx:100-107 | a task due today is never overdue |
| TaskOverview.OverdueLabelledPast | nisria-frontend/src/components/dashboard/TasksSection.jsx:74-107 | an overdue task's label is a day in the past |
| TaskOverview.ParsedDueDay | nisria-frontend/src/components/dashboard/TasksSection.jsx:76 | `new Date("YYYY-MM-DD")` is midnight UTC, whose local day is the due day at or east of UTC and the day before west of it |
| TaskOverview.FormatDueAsWritten | nisria-frontend/src/components/dashboard/TasksSection.jsx:74-97 | as written: the label of the parsed day, the same as for the local reading at or east of UTC; west of UTC "Today" means the due day is tomorrow |
| TaskOverview.IsOverdueAsWritten | nisria-frontend/src/components/dashboard/TasksSection.jsx:100-107 | as written: the same as for the local reading at or east of UTC; west of UTC overdue as soon as the due day has begun |
| TaskOverview.DueTodayOverdueWestOfUtc | nisria-frontend/src/components/dashboard/TasksSection.jsx:102-106 | west of UTC a task due today is labelled "Yesterday" and, unless completed, overdue, while the local reading says "Today" and not overdue |
| TaskOverview.NewYorkDueTodayOverdue | nisria-frontend/src/components/dashboard/TasksSection.jsx:102-106 | at UTC−5 a pending task due 2024-03-10 is "Yesterday" and overdue at midnight that day |
| TaskOverview.FilteredTasks | nisria-frontend/src/components/dashboard/TasksSection.jsx:110-123 | a task is shown exactly when it is in the list, matches the search and passes the filter key; the list's order is kept; the "overdue" key uses the local-day IsOverdue, whereas TasksSection.jsx:119 as written reads the due date as UTC midnight (IsOverdueAsWritten, see Findings) |
| TaskOverview.AllIsSearch | nisria-frontend/src/components/dashboard/TasksSection.jsx:110-116 | "All" is the search alone |
| TaskOverview.AssignedPartition | nisria-frontend/src/components/dashboard/TasksSection.jsx:117-118 | "Assigned" and "Unassigned" split the matches without overlap |
| TaskOverview.StatusKeyFilter | nisria-frontend/src/components/dashboard/TasksSection.jsx:122 | a status key keeps exactly the matches with that status |
| TaskOverview.OverdueAndGrantKeys | nisria-frontend/src/components/dashboard/TasksSection.jsx:119-120 | "overdue" keeps the overdue search matches, "grant" the grant follow-ups among them |
| TaskOverview.MatchesSearch | nisria-frontend/src/components/dashboard/TasksSection.jsx:111-114 | the term occurs in the title or the description, ignoring case; a missing text counts as empty |
| TaskOverview.PassesFilter | nisria-frontend/src/components/dashboard/TasksSection.jsx:116-122 | "all"; assigned or unassigned; overdue by the local-day IsOverdue (the source's line 119 uses the UTC reading, IsOverdueAsWritten); grant follow-up; any other key compared with the lower-cased status |
| TaskOverview.InProgressButtonAsWrittenEmpty | nisria-frontend/src/components/dashboard/TasksSection.jsx:254-256 | as written, the "In Progress" button shows nothing |
| TaskOverview.InProgressButton | nisria-frontend/src/components/dashboard/TasksSection.jsx:254-256 | corrected, it shows exactly the in-progress matches |

## Left out

- The filtersets (`django-filter` classes of divisions and email templates) are not part of this model; the filter step is the identity.
- Serializer validation of request bodies is the `valid` parameter; field types and the database's own constraints are not modelled.
- Query parameters arrive already parsed (`created_by_me`, the search term, the filters); Django's lookup coercion is not modelled.
- Divisions.PageSize: DRF's integer parsing of `page_size` is modelled for plain digit strings; signs and surrounding spaces are treated as invalid.
- Duplicate programs of the same name in one division cannot be modelled: the catalogue holds a set of (division, name) keys. `Program.name` is not unique within a division (divisions/models.py:44-47), so the source's `get_object_or_404` would raise `MultipleObjectsReturned` on such duplicates; that error is not modelled.
- Whitespace is ASCII whitespace; the Unicode classes of `trim()`, `\S` and Python's `strip()` are not modelled.
- Case folding (`toLowerCase`, `toUpperCase`, `str.lower()`, `icontains`) changes ASCII letters only; Unicode folding, where one letter can become several ("ß" upper-cases to "SS"), is not modelled. This concerns the task search, the status and priority badges, the division and program lookups, the reminder duplicate test and the initials.
- GrantsTable.Initials: its bound of three characters holds for the ASCII model only; with Unicode upper-casing "ßß" gives four.
- `strftime('%Y-%m-%d')` for years before 1000 is not modelled.
- GrantForms.NameMessage, GrantForms.CurrencyMessage, GrantForms.PhoneMessage, GrantForms.EmailMessage, GrantForms.LocationMessage, GrantForms.LinkMessage, GrantForms.NameOk, GrantForms.LocationOk, GrantForms.UpdateFormValid, GrantForms.CreateFormValid, GrantsTable.Initials: lengths and indices count Unicode code points (a string is a sequence of characters), whereas JavaScript's `.length`, `substring` and `[0]` count UTF-16 code units; text outside the Basic Multilingual Plane, such as an emoji, counts one character here and two units in the source, so a length bound is met sooner in the source and an initial may be half a surrogate pair there.
- Notification timestamps are a single `createdOn` date; the time of day is left out.
- Celery dispatch (`send_task`, `delay`) and `send_actual_notification`, which only logs, are left out; a request is appended to an outbox.
- Template rendering, Markdown conversion and the Gmail URL of the export view are left out; only the permission outcome is modelled.
- Database cascades, `select_related` and transactions are not modelled.
- Dates from the browser are valid calendar dates; the leniency of JavaScript's `Date` parsing and unparsable dates in sort comparators are not modelled.
- `parseFloat` is modelled as leading whitespace, an optional sign, then "Infinity" or a run of digits with an optional fraction; exponents, non-ASCII whitespace and underflow are not modelled.
- The phone-number check is the `phoneValid` parameter.
- RecycleBin.ToJson: the JSON values are null, booleans, integers and strings; a float, list or object kept by the `else` branch (core/models.py:137-138), as a FloatField or JSONField would give, is not modelled.
- RecycleBin.DecimalText: decimals have exactly two places, as the money fields of this repository do; `str(Decimal)` of other precisions and of exponent forms is not modelled.
- Amounts reach the table already as strings.
- Time zones are a fixed offset of less than a day, used for the week keys of the calendar (`UtcDay`) and for the UTC reading of a task's due date (`ParsedDueDay`); elsewhere dates are local calendar days, and daylight-saving shifts in `formatDate` are not modelled.
- TaskOverview.FormatDueAsWritten, TaskOverview.IsOverdueAsWritten: west of UTC they need a due date after 0001-01-01, which has no day before it in the model.
- GrantsCalendar.WeekStart: requires a date past the first week of year 1, since the model's calendar starts on 0001-01-01.
- GrantsCalendar.DayKey and GrantsCalendar.GrantsForDate require a non-negative year and month; the source's JavaScript dates are never earlier.
- Theme configuration, colours and class names are not modelled; styles and badges are named constants.
- GrantForms.SplitCombine: the round trip also requires that the country does not end in " -", because such a country lets the separator straddle the joint.
- The recycle bin's 400 branch for objects without `restore` is left out: every recycled type is a soft-delete model.
- The text `Intl.NumberFormat` and `toLocaleDateString` produce is not modelled; the amount display keeps the number and the upper-cased currency code, and the RangeError on a malformed code is the `Throws` outcome.
- The `on_hold` status has no badge of its own in the source and falls back to "To Do"; the model keeps that.
- React state, effects, modals and API error handling are not modelled.
- The sweep's logging and the text its Celery job returns are left out; the count it reports is modelled.
- Sweep failures are a `faults` map naming, for a failed item, whether the failure came before or after its original was erased.
- Tasks.TaskBoard.List: states membership and availability only; the full specification is Tasks.ListTasks, which it returns.

## Findings

| source | as written | input that shows it | evidently intended | confidence | as-written member | corrected member |
|---|---|---|---|---|---|---|
| nisria-backend/notifications/tasks.py:66 | `get_full_name()` of a user whose first and last names are empty (`None`) is the truthy "None None", so the email fallback never applies | an assigner whose `first_name` and `last_name` are `None` | the assigner's full name, or the email when there is none | medium, not executed | Notifications.AssignmentAsWrittenNamesNobody | Notifications.AssignmentNotification |
| nisria-frontend/src/components/dashboard/GrantsCalendar.jsx:158-165 | the week is sorted by `application_deadline \|\| award_date`, so an award entry sorts by its grant's deadline | grant G with deadline 2024-01-01 and award 2024-03-12, grant H with deadline 2024-03-11, week of 2024-03-10 | entries in order of their own date | high, not executed | GrantsCalendar.WeekOrderAsWrittenMisplacesAwards | GrantsCalendar.GrantsForSelectedWeek |
| nisria-frontend/src/components/dashboard/GrantsCalendar.jsx:152 | each day of the selected week is looked up by `toISOString().split('T')[0]`, the UTC date of local midnight, while entries are filed under local dates | Nairobi (UTC+3), the week of Sunday 2024-03-10, a deadline on Saturday 2024-03-16 is left out, and one on Saturday 2024-03-09, before the week, is listed | the local date of each day of the week | high, not executed | GrantsCalendar.NairobiWeekMissesSaturday | GrantsCalendar.GrantsForSelectedWeek |
| nisria-frontend/src/components/dashboard/TasksSection.jsx:57 | the badge and the filter button use "in-progress", while tasks are stored as "in_progress" | a task with status "in_progress" | the stored value "in_progress" | high, not executed | TaskOverview.InProgressButtonAsWrittenEmpty | TaskOverview.InProgressButton |
| nisria-frontend/src/components/grants/GrantsTable.jsx:64 | `submitted_by` is split on a tab followed by " - ", while the backend renders users as "name - role" | the label "Jane Doe - admin" | the separator " - " | medium, not executed | GrantsTable.SubmittedByAsWrittenKeepsRole | GrantsTable.ParseUserLabel |
| nisria-frontend/src/components/dashboard/TasksSection.jsx:102-106 | a bare `due_date` is parsed as midnight UTC and then read with local getters and `setHours`, so west of UTC the due day becomes the day before | UTC−5, a pending task due 2024-03-10 viewed on 2024-03-10 | the due day read as a local date, so that a task due today is not overdue until tomorrow | high, not executed | TaskOverview.NewYorkDueTodayOverdue | TaskOverview.DueTodayNotOverdue |
| nisria-frontend/src/components/grants/GrantsTable.jsx:118 | the select-all box compares the number of selected ids with the number of rows, and the selection is kept across pages | ten grants selected on page 1, then page 2 with ten other grants: the box is checked and reads "10 of 10 selected" | checked only when every row of the page is selected | high, not executed | GrantsTable.SecondPageShowsAllSelected | GrantsTable.SelectAllMeansEveryRow |
