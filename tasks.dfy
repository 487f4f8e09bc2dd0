/** The task manager: who sees which tasks, who may read or change one,
    the restriction on what an assignee may change, the two status
    endpoints, and the post-save signal that asks for an assignment
    notification. */
module Tasks {
  import opened Common
  import opened Strings
  import Dates
  import Seqs

  datatype TaskStatus = Todo | InProgress | Completed | OnHold
  datatype Priority = Low | Medium | High

  /** The stored codes of STATUS_CHOICES. */
  function StatusCode(s: TaskStatus): string {
    match s
    case Todo => "todo"
    case InProgress => "in_progress"
    case Completed => "completed"
    case OnHold => "on_hold"
  }

  /** The status a code names, if it is one of the choices. */
  function ParseStatus(code: string): (r: Option<TaskStatus>)
    ensures r.Some? ==> StatusCode(r.value) == code
    ensures r.None? ==> forall s: TaskStatus :: StatusCode(s) != code
  {
    if code == "todo" then Some(Todo)
    else if code == "in_progress" then Some(InProgress)
    else if code == "completed" then Some(Completed)
    else if code == "on_hold" then Some(OnHold)
    else None
  }

  lemma StatusCodeRoundTrip(s: TaskStatus)
    ensures ParseStatus(StatusCode(s)) == Some(s)
  {
  }

  function PriorityCode(p: Priority): string {
    match p
    case Low => "low"
    case Medium => "medium"
    case High => "high"
  }

  datatype Task = Task(
    id: nat,
    title: string,
    description: Option<string>,
    assignedTo: Option<UserId>,
    assignedBy: Option<UserId>,
    status: TaskStatus,
    priority: Priority,
    dueDate: Option<Dates.ValidDate>,
    grant: Option<nat>,
    isGrantFollowUp: bool)

  // ---------------------------------------------------------------- permissions

  /** `CanManageAllTasks`: an authenticated super admin or management lead. */
  predicate CanManageAllTasks(requester: Option<User>) {
    requester.Some? && ManagesAll(requester.value.role)
  }

  predicate IsAssignee(requester: Option<User>, t: Task) {
    requester.Some? && t.assignedTo == Some(requester.value.id)
  }

  /** `IsAssigneeOrManagerForTaskObject.has_object_permission`. */
  predicate HasObjectPermission(requester: Option<User>, t: Task) {
    requester.Some? && (IsAssignee(requester, t) || ManagesAll(requester.value.role))
  }

  /** Anonymous requesters have no access to any task; managers have access
      to every task; anyone else has access exactly to the tasks assigned
      to them. */
  lemma ObjectPermissionCases(requester: Option<User>, t: Task)
    ensures requester.None? ==> !HasObjectPermission(requester, t)
    ensures CanManageAllTasks(requester) ==> HasObjectPermission(requester, t)
    ensures requester.Some? && !CanManageAllTasks(requester) ==>
      (HasObjectPermission(requester, t) <==> t.assignedTo == Some(requester.value.id))
  {
  }

  const AssigneeEditableFields: set<string> := {"status", "priority"}

  /** The fields of a request an assignee who is not a manager may not
      send; a manager, or anyone not the assignee, has none. */
  function ForbiddenFields(user: User, t: Task, requestKeys: set<string>): (r: set<string>)
    ensures r <= requestKeys
    ensures r == {} <==> ManagesAll(user.role) || t.assignedTo != Some(user.id) || requestKeys <= AssigneeEditableFields
  {
    if !ManagesAll(user.role) && t.assignedTo == Some(user.id) then requestKeys - AssigneeEditableFields else {}
  }

  /** The fields of `TaskSerializer`, by their names in a request, and the
      ones it declares read-only. */
  const TaskFields: set<string> :=
    {"id", "title", "description", "assigned_to", "assigned_by", "status", "priority", "due_date", "grant", "is_grant_follow_up_task"}
  const ReadOnlyTaskFields: set<string> := {"id", "assigned_by", "is_grant_follow_up_task"}
  const WritableTaskFields: set<string> :=
    {"title", "description", "assigned_to", "status", "priority", "due_date", "grant"}

  /** The writable fields are the serializer's fields less the read-only ones. */
  lemma WritableFields()
    ensures WritableTaskFields == TaskFields - ReadOnlyTaskFields
    ensures TaskFields == WritableTaskFields + ReadOnlyTaskFields
  {
  }

  /** Two tasks agree on the field a request calls `key`. */
  predicate SameField(a: Task, b: Task, key: string) {
    match key
    case "id" => a.id == b.id
    case "title" => a.title == b.title
    case "description" => a.description == b.description
    case "assigned_to" => a.assignedTo == b.assignedTo
    case "assigned_by" => a.assignedBy == b.assignedBy
    case "status" => a.status == b.status
    case "priority" => a.priority == b.priority
    case "due_date" => a.dueDate == b.dueDate
    case "grant" => a.grant == b.grant
    case "is_grant_follow_up_task" => a.isGrantFollowUp == b.isGrantFollowUp
    case _ => true
  }

  /** `r` takes each writable field from `sent` when the request sent it
      and from `current` otherwise, and every read-only field from
      `current`, field by field. */
  predicate TakesSent(r: Task, current: Task, sent: Task, keys: set<string>) {
    r.id == current.id && r.assignedBy == current.assignedBy && r.isGrantFollowUp == current.isGrantFollowUp &&
    r.title == (if "title" in keys then sent.title else current.title) &&
    r.description == (if "description" in keys then sent.description else current.description) &&
    r.assignedTo == (if "assigned_to" in keys then sent.assignedTo else current.assignedTo) &&
    r.status == (if "status" in keys then sent.status else current.status) &&
    r.priority == (if "priority" in keys then sent.priority else current.priority) &&
    r.dueDate == (if "due_date" in keys then sent.dueDate else current.dueDate) &&
    r.grant == (if "grant" in keys then sent.grant else current.grant)
  }

  /** The field-by-field reading of `TakesSent`, by the names a request uses. */
  lemma TakesSentFields(r: Task, current: Task, sent: Task, keys: set<string>)
    requires TakesSent(r, current, sent, keys)
    ensures forall key :: key in WritableTaskFields && key in keys ==> SameField(r, sent, key)
    ensures forall key :: key in WritableTaskFields && key !in keys ==> SameField(r, current, key)
    ensures forall key :: key in ReadOnlyTaskFields ==> SameField(r, current, key)
  {
  }

  /** What `TaskSerializer.save()` writes: every writable field the request
      sent takes the sent value; every other field, and every read-only one,
      keeps the stored value. A full update differs from a partial one only
      in which fields the serializer demands, which the validity flag of
      the update stands for. */
  function Patched(current: Task, sent: Task, requestKeys: set<string>): (r: Task)
    ensures forall key :: key in WritableTaskFields && key in requestKeys ==> SameField(r, sent, key)
    ensures forall key :: key in WritableTaskFields && key !in requestKeys ==> SameField(r, current, key)
    ensures forall key :: key in ReadOnlyTaskFields ==> SameField(r, current, key)
  {
    var r := current.(
      title := if "title" in requestKeys then sent.title else current.title,
      description := if "description" in requestKeys then sent.description else current.description,
      assignedTo := if "assigned_to" in requestKeys then sent.assignedTo else current.assignedTo,
      status := if "status" in requestKeys then sent.status else current.status,
      priority := if "priority" in requestKeys then sent.priority else current.priority,
      dueDate := if "due_date" in requestKeys then sent.dueDate else current.dueDate,
      grant := if "grant" in requestKeys then sent.grant else current.grant);
    TakesSentFields(r, current, sent, requestKeys);
    r
  }

  /** The task `create_task` saves: the validated fields of the draft, the
      new id, the requester as assigner, and the read-only
      `is_grant_follow_up_task` at its model default, false. */
  function NewTask(draft: Task, id: nat, assigner: UserId): (r: Task)
    ensures r.id == id && r.assignedBy == Some(assigner) && !r.isGrantFollowUp
    ensures forall key :: key in WritableTaskFields ==> SameField(r, draft, key)
  {
    draft.(id := id, assignedBy := Some(assigner), isGrantFollowUp := false)
  }

  /** A request that sends nothing writes nothing, and sending the same
      request twice writes the same task as sending it once. */
  lemma PatchedUnsentAndRepeat(current: Task, sent: Task, requestKeys: set<string>)
    ensures Patched(current, sent, {}) == current
    ensures Patched(Patched(current, sent, requestKeys), sent, requestKeys) == Patched(current, sent, requestKeys)
  {
  }

  /** An assignee who is not a manager and whose request has no forbidden
      field changes at most the status and the priority of the task. */
  lemma {:induction false} AssigneeChangesOnlyStatusAndPriority(user: User, t: Task, sent: Task, requestKeys: set<string>)
    requires !ManagesAll(user.role) && t.assignedTo == Some(user.id)
    requires ForbiddenFields(user, t, requestKeys) == {}
    ensures Patched(t, sent, requestKeys) == t.(status := Patched(t, sent, requestKeys).status, priority := Patched(t, sent, requestKeys).priority)
  {
    assert requestKeys <= AssigneeEditableFields;
    assert "title" !in requestKeys && "description" !in requestKeys;
    assert "assigned_to" !in requestKeys && "due_date" !in requestKeys && "grant" !in requestKeys;
  }

  // ---------------------------------------------------------------- listing

  /** The query parameters of `list_tasks` that it reads; the assignee
      filter and due date are given already parsed. */
  datatype TaskQuery = TaskQuery(
    createdByMe: Option<string>,
    search: Option<string>,
    status: Option<string>,
    priority: Option<string>,
    assignedToId: Option<UserId>,
    dueDate: Option<Dates.ValidDate>)

  /** A query parameter is applied only when present and non-empty. */
  predicate Given(p: Option<string>) {
    p.Some? && p.value != ""
  }

  /** The base scope: managers see every task, or only the ones they
      assigned when `created_by_me` is "true" in any letter case; anyone
      else sees the tasks assigned to them. */
  predicate InScope(user: User, q: TaskQuery, t: Task) {
    if ManagesAll(user.role) then
      Lower(q.createdByMe.GetOr("false")) == "true" ==> t.assignedBy == Some(user.id)
    else t.assignedTo == Some(user.id)
  }

  predicate MatchesSearch(q: TaskQuery, t: Task) {
    Given(q.search) ==>
      (ContainsIgnoringCase(t.title, q.search.value) ||
       (t.description.Some? && ContainsIgnoringCase(t.description.value, q.search.value)))
  }

  /** The exact filters; the assignee filter applies to managers only. */
  predicate MatchesFilters(user: User, q: TaskQuery, t: Task) {
    (Given(q.status) ==> StatusCode(t.status) == q.status.value) &&
    (Given(q.priority) ==> PriorityCode(t.priority) == q.priority.value) &&
    (q.assignedToId.Some? && ManagesAll(user.role) ==> t.assignedTo == q.assignedToId) &&
    (q.dueDate.Some? ==> t.dueDate == q.dueDate)
  }

  /** The scope of `list_tasks` and then its search, keeping the order. */
  function ScopeAndSearch(user: User, q: TaskQuery, tasks: seq<Task>): (r: seq<Task>)
    ensures forall t :: t in r <==> t in tasks && InScope(user, q, t) && MatchesSearch(q, t)
    ensures Seqs.Subsequence(r, tasks)
  {
    var scoped := Seqs.FilterIf(true, tasks, (t: Task) => InScope(user, q, t));
    var searched := Seqs.FilterIf(Given(q.search), scoped, (t: Task) => MatchesSearch(q, t));
    Seqs.SubsequenceTrans(searched, scoped, tasks);
    searched
  }

  /** The status, priority, assignee and due-date filters in turn, keeping
      the order. */
  function ExactFilters(user: User, q: TaskQuery, tasks: seq<Task>): (r: seq<Task>)
    ensures forall t :: t in r <==> t in tasks && MatchesFilters(user, q, t)
    ensures Seqs.Subsequence(r, tasks)
  {
    var byStatus := Seqs.FilterIf(Given(q.status), tasks, (t: Task) => q.status == Some(StatusCode(t.status)));
    var byPriority := Seqs.FilterIf(Given(q.priority), byStatus, (t: Task) => q.priority == Some(PriorityCode(t.priority)));
    var byAssignee := Seqs.FilterIf(q.assignedToId.Some? && ManagesAll(user.role), byPriority,
      (t: Task) => t.assignedTo == q.assignedToId);
    var byDue := Seqs.FilterIf(q.dueDate.Some?, byAssignee, (t: Task) => t.dueDate == q.dueDate);
    Seqs.SubsequenceTrans(byPriority, byStatus, tasks);
    Seqs.SubsequenceTrans(byAssignee, byPriority, tasks);
    Seqs.SubsequenceTrans(byDue, byAssignee, tasks);
    byDue
  }

  /** `list_tasks` over the table in its default order (newest first): the
      scope, then search, status, priority, assignee and due-date filters in
      turn, each keeping the order of what it filters. `None` for an
      anonymous requester. */
  function ListTasks(requester: Option<User>, tasks: seq<Task>, q: TaskQuery): (r: Option<seq<Task>>)
    ensures r.Some? <==> requester.Some?
    ensures r.Some? ==> forall t :: t in r.value <==>
      t in tasks && InScope(requester.value, q, t) && MatchesSearch(q, t) && MatchesFilters(requester.value, q, t)
    ensures r.Some? ==> Seqs.Subsequence(r.value, tasks)
  {
    if requester.None? then None
    else
      var searched := ScopeAndSearch(requester.value, q, tasks);
      var filtered := ExactFilters(requester.value, q, searched);
      Seqs.SubsequenceTrans(filtered, searched, tasks);
      Some(filtered)
  }

  /** Whatever the query, someone who is not a manager only ever sees tasks
      assigned to them; with no parameters a manager sees every task. */
  lemma ListTasksScope(user: User, tasks: seq<Task>, q: TaskQuery)
    ensures !ManagesAll(user.role) ==>
      forall t :: t in ListTasks(Some(user), tasks, q).value ==> t.assignedTo == Some(user.id)
    ensures ManagesAll(user.role) && q == TaskQuery(None, None, None, None, None, None) ==>
      forall t :: t in ListTasks(Some(user), tasks, q).value <==> t in tasks
  {
  }

  // ---------------------------------------------------------------- signal

  /** How a task was saved: created, saved with a list of fields, or saved
      in full. */
  datatype SaveKind = OnCreate | UpdateFields(fields: set<string>) | FullSave

  /** The arguments of an assignment-notification request. */
  datatype NotifyRequest = NotifyRequest(taskId: nat, assigneeId: UserId, assignerId: Option<UserId>)

  /** `task_saved_handler`: asks for a notification when a task with an
      assignee is created, or saved with `assigned_to` among its fields. */
  function SignalOnSave(t: Task, kind: SaveKind): (r: Option<NotifyRequest>)
    ensures r.Some? <==> t.assignedTo.Some? && (kind.OnCreate? || (kind.UpdateFields? && "assigned_to" in kind.fields))
    ensures r.Some? ==> r.value == NotifyRequest(t.id, t.assignedTo.value, t.assignedBy)
  {
    if t.assignedTo.None? then None
    else
      var notify := match kind
        case OnCreate => true
        case UpdateFields(fields) => fields != {} && "assigned_to" in fields
        case FullSave => false;
      if notify then Some(NotifyRequest(t.id, t.assignedTo.value, t.assignedBy)) else None
  }

  /** Full saves and status-only saves never notify, whatever they change. */
  lemma FullAndStatusSavesNeverNotify(t: Task)
    ensures SignalOnSave(t, FullSave).None?
    ensures SignalOnSave(t, UpdateFields({"status", "updated_at"})).None?
    ensures t.assignedTo.None? ==> forall k: SaveKind :: SignalOnSave(t, k).None?
  {
  }

  // ---------------------------------------------------------------- endpoints

  /** The outcome of reading a task. */
  datatype Retrieved = Found(task: Task) | Missing | Forbidden

  /** The position of the task with `id`. */
  function FindTask(tasks: seq<Task>, id: nat): (r: Option<nat>)
    ensures r.Some? ==> r.value < |tasks| && tasks[r.value].id == id
    ensures r.None? ==> forall k :: 0 <= k < |tasks| ==> tasks[k].id != id
  {
    if tasks == [] then None
    else if tasks[0].id == id then Some(0)
    else match FindTask(tasks[1..], id)
      case None => None
      case Some(k) => Some(k + 1)
  }

  /** The task table, newest first, and the notification requests the
      post-save signal has sent. */
  class TaskBoard {
    var tasks: seq<Task>
    var nextId: nat
    var outbox: seq<NotifyRequest>

    /** Ids descend along the table (newest first) and stay below the next id. */
    ghost predicate Valid()
      reads this
    {
      (forall i, j :: 0 <= i < j < |tasks| ==> tasks[i].id > tasks[j].id) &&
      (forall i :: 0 <= i < |tasks| ==> tasks[i].id < nextId)
    }

    constructor()
      ensures Valid() && tasks == [] && nextId == 0 && outbox == []
    {
      tasks := [];
      nextId := 0;
      outbox := [];
    }

    /** Sends what the signal asks for after a save. */
    method Signal(t: Task, kind: SaveKind)
      modifies this
      ensures tasks == old(tasks) && nextId == old(nextId)
      ensures outbox == old(outbox) + match SignalOnSave(t, kind) case Some(req) => [req] case None => []
    {
      var req := SignalOnSave(t, kind);
      if req.Some? {
        outbox := outbox + [req.value];
      }
    }

    /** `create_task`: managers only; a request the serializer accepts
        (`valid`) becomes a new task assigned by the requester, never a
        grant follow-up. */
    method CreateTask(requester: Option<User>, draft: Task, valid: bool) returns (status: Status)
      requires Valid()
      modifies this
      ensures Valid()
      ensures !CanManageAllTasks(requester) ==> status == Denied
      ensures CanManageAllTasks(requester) && !valid ==> status == BadRequest
      ensures status != Created ==> tasks == old(tasks) && nextId == old(nextId) && outbox == old(outbox)
      ensures status == Created <==> CanManageAllTasks(requester) && valid
      ensures status == Created ==>
        var t := NewTask(draft, old(nextId), requester.value.id);
        tasks == [t] + old(tasks) && nextId == old(nextId) + 1 &&
        outbox == old(outbox) + match SignalOnSave(t, OnCreate) case Some(req) => [req] case None => []
    ensures status == Created ==> !tasks[0].isGrantFollowUp && tasks[0].id == old(nextId)
    {
      if !CanManageAllTasks(requester) {
        return Denied;
      }
      if !valid {
        return BadRequest;
      }
      var t := NewTask(draft, nextId, requester.value.id);
      tasks := [t] + tasks;
      nextId := nextId + 1;
      Signal(t, OnCreate);
      return Created;
    }

    /** `retrieve_task`: anonymous requesters are refused first, then a
        missing task is not found, then the object permission decides. */
    function Retrieve(requester: Option<User>, id: nat): (r: Retrieved)
      reads this
      ensures requester.None? ==> r == Forbidden
      ensures r.Found? ==> r.task in tasks && r.task.id == id && HasObjectPermission(requester, r.task)
      ensures r == Missing <==> requester.Some? && FindTask(tasks, id).None?
      ensures r == Forbidden && requester.Some? ==> FindTask(tasks, id).Some? && !HasObjectPermission(requester, tasks[FindTask(tasks, id).value])
    {
      if requester.None? then Forbidden
      else match FindTask(tasks, id)
        case None => Missing
        case Some(k) => if HasObjectPermission(requester, tasks[k]) then Found(tasks[k]) else Forbidden
    }

    /** `update_task`: after the object permission, an assignee who is not a
        manager may send only status and priority; a request the serializer
        accepts writes the fields it sent (never the id) in a full save,
        which never notifies. */
    method UpdateTask(requester: Option<User>, id: nat, requestKeys: set<string>, updated: Task, valid: bool)
      returns (status: Status)
      requires Valid()
      modifies this
      ensures Valid()
      ensures outbox == old(outbox) && nextId == old(nextId)
      ensures status != Ok ==> tasks == old(tasks)
      ensures status == Ok <==>
        requester.Some? && FindTask(old(tasks), id).Some? &&
        HasObjectPermission(requester, old(tasks)[FindTask(old(tasks), id).value]) &&
        ForbiddenFields(requester.value, old(tasks)[FindTask(old(tasks), id).value], requestKeys) == {} && valid
      ensures status == Ok ==>
        var k := FindTask(old(tasks), id).value;
        tasks == old(tasks)[k := Patched(old(tasks)[k], updated, requestKeys)]
      ensures status == NotFound <==> requester.Some? && FindTask(old(tasks), id).None?
      ensures status == Denied <==>
        requester.None? ||
        (FindTask(old(tasks), id).Some? &&
         (!HasObjectPermission(requester, old(tasks)[FindTask(old(tasks), id).value]) ||
          ForbiddenFields(requester.value, old(tasks)[FindTask(old(tasks), id).value], requestKeys) != {}))
      ensures status == BadRequest <==>
        requester.Some? && FindTask(old(tasks), id).Some? &&
        HasObjectPermission(requester, old(tasks)[FindTask(old(tasks), id).value]) &&
        ForbiddenFields(requester.value, old(tasks)[FindTask(old(tasks), id).value], requestKeys) == {} && !valid
    {
      if requester.None? {
        return Denied;
      }
      var found := FindTask(tasks, id);
      if found.None? {
        return NotFound;
      }
      var k := found.value;
      if !HasObjectPermission(requester, tasks[k]) {
        return Denied;
      }
      if ForbiddenFields(requester.value, tasks[k], requestKeys) != {} {
        return Denied;
      }
      if !valid {
        return BadRequest;
      }
      var t := Patched(tasks[k], updated, requestKeys);
      tasks := tasks[k := t];
      Signal(t, FullSave);
      return Ok;
    }

    /** `mark_task_as_complete`: any authenticated user; an already
        completed task is a bad request. */
    method MarkComplete(requester: Option<User>, id: nat) returns (status: Status)
      requires Valid()
      modifies this
      ensures Valid()
      ensures outbox == old(outbox) && nextId == old(nextId)
      ensures status != Ok ==> tasks == old(tasks)
      ensures requester.None? ==> status == Denied
      ensures requester.Some? && FindTask(old(tasks), id).None? ==> status == NotFound
      ensures requester.Some? && FindTask(old(tasks), id).Some? ==>
        var k := FindTask(old(tasks), id).value;
        (old(tasks)[k].status == Completed ==> status == BadRequest) &&
        (old(tasks)[k].status != Completed ==> status == Ok && tasks == old(tasks)[k := old(tasks)[k].(status := Completed)])
    {
      if requester.None? {
        return Denied;
      }
      var found := FindTask(tasks, id);
      if found.None? {
        return NotFound;
      }
      var k := found.value;
      if tasks[k].status == Completed {
        return BadRequest;
      }
      var t := tasks[k].(status := Completed);
      tasks := tasks[k := t];
      Signal(t, UpdateFields({"status", "updated_at"}));
      return Ok;
    }

    /** `change_task_status`: any authenticated user; a missing, empty or
        unknown status is a bad request. */
    method ChangeStatus(requester: Option<User>, id: nat, newStatus: Option<string>) returns (status: Status)
      requires Valid()
      modifies this
      ensures Valid()
      ensures outbox == old(outbox) && nextId == old(nextId)
      ensures status != Ok ==> tasks == old(tasks)
      ensures requester.None? ==> status == Denied
      ensures requester.Some? && FindTask(old(tasks), id).None? ==> status == NotFound
      ensures requester.Some? && FindTask(old(tasks), id).Some? ==>
        var k := FindTask(old(tasks), id).value;
        (!Given(newStatus) || ParseStatus(newStatus.value).None? ==> status == BadRequest) &&
        (Given(newStatus) && ParseStatus(newStatus.value).Some? ==>
          status == Ok && tasks == old(tasks)[k := old(tasks)[k].(status := ParseStatus(newStatus.value).value)] &&
          StatusCode(tasks[k].status) == newStatus.value)
    {
      if requester.None? {
        return Denied;
      }
      var found := FindTask(tasks, id);
      if found.None? {
        return NotFound;
      }
      if !Given(newStatus) {
        return BadRequest;
      }
      var parsed := ParseStatus(newStatus.value);
      if parsed.None? {
        return BadRequest;
      }
      var k := found.value;
      var t := tasks[k].(status := parsed.value);
      tasks := tasks[k := t];
      Signal(t, UpdateFields({"status", "updated_at"}));
      return Ok;
    }

    /** The task list for a requester (`list_tasks` over this table). */
    function List(requester: Option<User>, q: TaskQuery): (r: Option<seq<Task>>)
      reads this
      ensures r.Some? ==> forall t :: t in r.value ==> t in tasks
      ensures r.Some? <==> requester.Some?
    {
      ListTasks(requester, tasks, q)
    }
  }
}
