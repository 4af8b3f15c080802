/**
 * api/serializers.py, TaskSerializer: validation of submitted task fields, the
 * forced assignee on create, the status-change activity on update, and the
 * two most recent comments shown with a task.
 */
module ApiSerializers {
  import opened Base
  import opened Sorting
  import opened ApiModels
  import opened Db
  import opened ApiUtils

  /** STATUS_LABELS: the display label of each status value, and of the "all" filter. */
  const StatusLabels: map<string, string> := map[
    "in_progress" := "W toku",
    "completed" := "Ukończone",
    "overdue" := "Po terminie",
    "upcoming" := "Nadchodzące",
    "all" := "Wszystkie"]

  /** validate_status: a value passes exactly when it is a key of STATUS_LABELS. */
  function ValidateStatus(value: string): (r: Response<string>)
    ensures r.Ok? <==> value in {"in_progress", "completed", "overdue", "upcoming", "all"}
    ensures r.Ok? ==> r.value == value
    ensures !r.Ok? ==> r == BadRequest
  {
    if value in StatusLabels.Keys then Ok(value) else BadRequest
  }

  /**
   * The whole check on a submitted status: the model field's choices first, then
   * validate_status.  "all" passes validate_status but never the choices, so only
   * the four stored values get through.
   */
  function CheckStatusField(value: string): (r: Response<string>)
    ensures r.Ok? <==> ParseStatus(value).Some?
    ensures r.Ok? ==> r.value == value && ValidateStatus(value).Ok?
    ensures !r.Ok? ==> r == BadRequest
  {
    if ParseStatus(value).None? then BadRequest else ValidateStatus(value)
  }

  /**
   * `STATUS_LABELS.get(code, code)`: the label of a known value, the value itself
   * otherwise.  LabelsMatchChoices ties these labels to the status choices.
   */
  function LabelOf(code: string): (r: string)
    ensures code in StatusLabels ==> r == StatusLabels[code]
    ensures code !in StatusLabels ==> r == code
  {
    if code in StatusLabels then StatusLabels[code] else code
  }

  /** STATUS_LABELS agrees with the display names of STATUS_CHOICES on every stored status. */
  lemma LabelsMatchChoices(s: Status)
    ensures LabelOf(StatusCode(s)) == StatusDisplay(s)
    ensures StatusCode(s) in StatusLabels
  {
    match s
    case InProgress =>
    case Completed =>
    case Overdue =>
    case Upcoming =>
  }

  /**
   * The writable fields of a create request, with the model's defaults already in
   * place for those that may be omitted (description "", is_completed false).
   */
  datatype TaskInput = TaskInput(
    title: string,
    description: string,
    isCompleted: bool,
    deadline: Option<int>,
    priority: Option<string>,
    assignedToId: Option<UserId>,
    status: Option<string>)

  /** A create request after validation. */
  datatype TaskData = TaskData(
    title: string,
    description: string,
    isCompleted: bool,
    deadline: Option<int>,
    priority: Priority,
    assignedTo: Option<UserId>)

  /**
   * The characters Python's `str.isspace` accepts; a serializer CharField strips
   * them from both ends of every submitted string (`trim_whitespace`).
   */
  predicate IsSpace(c: char)
  {
    || '\t' <= c <= '\r'
    || '\U{1C}' <= c <= ' '
    || c == '\U{85}' || c == '\U{A0}' || c == '\U{1680}'
    || '\U{2000}' <= c <= '\U{200A}'
    || c == '\U{2028}' || c == '\U{2029}' || c == '\U{202F}' || c == '\U{205F}' || c == '\U{3000}'
  }

  /** The number of whitespace characters that open `s`. */
  function LeadingSpaces(s: string): (n: nat)
    ensures n <= |s|
    ensures forall k :: 0 <= k < n ==> IsSpace(s[k])
    ensures n < |s| ==> !IsSpace(s[n])
  {
    if s == [] || !IsSpace(s[0]) then 0 else 1 + LeadingSpaces(s[1..])
  }

  /** The number of whitespace characters that close `s`. */
  function TrailingSpaces(s: string): (n: nat)
    ensures n <= |s|
    ensures forall k :: |s| - n <= k < |s| ==> IsSpace(s[k])
    ensures n < |s| ==> !IsSpace(s[|s| - n - 1])
  {
    if s == [] || !IsSpace(s[|s| - 1]) then 0 else 1 + TrailingSpaces(s[..|s| - 1])
  }

  /**
   * `str.strip()`: `s` without its leading and trailing whitespace.  The result is
   * a slice of `s` that neither starts nor ends with whitespace, it is empty exactly
   * when `s` is all whitespace, and everything cut off is whitespace.
   */
  function Strip(s: string): (r: string)
    ensures |r| <= |s|
    ensures r == [] <==> forall k :: 0 <= k < |s| ==> IsSpace(s[k])
    ensures r != [] ==> !IsSpace(r[0]) && !IsSpace(r[|r| - 1])
    ensures LeadingSpaces(s) + |r| <= |s| && r == s[LeadingSpaces(s)..LeadingSpaces(s) + |r|]
    ensures forall k :: LeadingSpaces(s) + |r| <= k < |s| ==> IsSpace(s[k])
  {
    var rest := s[LeadingSpaces(s)..];
    var r := rest[..|rest| - TrailingSpaces(rest)];
    assert forall k :: LeadingSpaces(s) + |r| <= k < |s| ==> s[k] == rest[k - LeadingSpaces(s)];
    r
  }

  /** A string with no whitespace at either end is left as it is; so stripping twice is stripping once. */
  lemma StripUnpadded(s: string)
    requires s == [] || (!IsSpace(s[0]) && !IsSpace(s[|s| - 1]))
    ensures Strip(s) == s
    ensures Strip(Strip(s)) == Strip(s)
  {
  }

  lemma StripIdempotent(s: string)
    ensures Strip(Strip(s)) == Strip(s)
  {
    StripUnpadded(Strip(s));
  }

  /**
   * Whitespace added around a string that neither starts nor ends with whitespace
   * is removed again: a title submitted as "Raport " is stored as "Raport".
   */
  lemma StripPadding(core: string, pre: string, post: string)
    requires core != [] && !IsSpace(core[0]) && !IsSpace(core[|core| - 1])
    requires forall k :: 0 <= k < |pre| ==> IsSpace(pre[k])
    requires forall k :: 0 <= k < |post| ==> IsSpace(post[k])
    ensures Strip(pre + core + post) == core
  {
    var s := pre + core + post;
    assert forall k :: 0 <= k < |pre| ==> s[k] == pre[k];
    assert forall k :: 0 <= k < |core| ==> s[|pre| + k] == core[k];
    assert forall k :: 0 <= k < |post| ==> s[|pre| + |core| + k] == post[k];
    assert forall k :: 0 <= k < |pre| ==> IsSpace(s[k]);
    assert !IsSpace(s[|pre|]);
    assert LeadingSpaces(s) == |pre|;
    var r := Strip(s);
    assert !IsSpace(s[|pre| + |core| - 1]);
    assert forall k :: |pre| + |core| <= k < |s| ==> IsSpace(s[k]);
    assert forall k :: 0 <= k < |r| ==> r[k] == s[|pre| + k];
    assert |r| == |core|;
    assert s[|pre|..|pre| + |core|] == core;
  }

  /** Every serializer CharField also refuses the NUL character. */
  predicate NoNul(text: string)
  {
    '\0' !in text
  }

  /** The title field after stripping: not blank, at most 255 characters (`CharField(max_length=255)`). */
  predicate TitleValid(title: string)
  {
    title != "" && |title| <= 255 && NoNul(title)
  }

  /** The description field after stripping: may be blank (`TextField(blank=True)`). */
  predicate DescriptionValid(description: string)
  {
    NoNul(description)
  }

  /** A comment's content after stripping: required and not blank (`TextField()`). */
  predicate ContentValid(content: string)
  {
    content != "" && NoNul(content)
  }

  /** The assigned_to_id field: the primary key of an existing user. */
  predicate AssigneeIdValid(users: map<UserId, User>, id: Option<UserId>)
  {
    id.Some? ==> id.value in users
  }

  /**
   * is_valid() on a create request: rejected when any field fails its check.
   * Title and description are stripped first, and the title is checked and stored
   * stripped.  An omitted priority takes the model default, and a status that
   * passes is not carried on, since Task.save replaces it.
   */
  function ValidateTaskInput(users: map<UserId, User>, input: TaskInput): (r: Response<TaskData>)
    ensures r.Ok? <==>
      && TitleValid(Strip(input.title))
      && DescriptionValid(Strip(input.description))
      && (input.priority.Some? ==> ParsePriority(input.priority.value).Some?)
      && (input.status.Some? ==> ParseStatus(input.status.value).Some?)
      && AssigneeIdValid(users, input.assignedToId)
    ensures !r.Ok? ==> r == BadRequest
    ensures r.Ok? ==> (r.value.assignedTo == input.assignedToId && r.value.deadline == input.deadline
      && r.value.title == Strip(input.title) && r.value.description == Strip(input.description)
      && r.value.isCompleted == input.isCompleted)
    ensures r.Ok? && input.priority.None? ==> r.value.priority == DefaultPriority
    ensures r.Ok? && input.priority.Some? ==> PriorityName(r.value.priority) == input.priority.value
  {
    var title := Strip(input.title);
    if !TitleValid(title) then BadRequest
    else if !DescriptionValid(Strip(input.description)) then BadRequest
    else if input.priority.Some? && ParsePriority(input.priority.value).None? then BadRequest
    else if input.status.Some? && !CheckStatusField(input.status.value).Ok? then BadRequest
    else if !AssigneeIdValid(users, input.assignedToId) then BadRequest
    else
      var priority := if input.priority.Some? then ParsePriority(input.priority.value).value else DefaultPriority;
      Ok(TaskData(title, Strip(input.description), input.isCompleted, input.deadline, priority, input.assignedToId))
  }

  /** The writable fields of an update request; an omitted field is None. */
  datatype TaskPatch = TaskPatch(
    title: Option<string>,
    description: Option<string>,
    isCompleted: Option<bool>,
    deadline: Option<Option<int>>,
    priority: Option<string>,
    assignedToId: Option<UserId>,
    status: Option<string>)

  /** An update request after validation. */
  datatype PatchData = PatchData(
    title: Option<string>,
    description: Option<string>,
    isCompleted: Option<bool>,
    deadline: Option<Option<int>>,
    priority: Option<Priority>,
    assignedTo: Option<UserId>,
    status: Option<string>)

  /** A submitted string field after `trim_whitespace`; an omitted field stays omitted. */
  function StripField(field: Option<string>): (r: Option<string>)
    ensures r.Some? <==> field.Some?
    ensures r.Some? ==> r.value == Strip(field.value)
  {
    match field
    case None => None
    case Some(v) => Some(Strip(v))
  }

  /**
   * is_valid() on an update request: each field that is present must pass its
   * check, title and description are stripped, and a full update (PUT, `partial`
   * false) must carry the title, the one required field of the model.
   */
  function ValidatePatch(users: map<UserId, User>, patch: TaskPatch, partial: bool): (r: Response<PatchData>)
    ensures r.Ok? <==>
      && (!partial ==> patch.title.Some?)
      && (patch.title.Some? ==> TitleValid(Strip(patch.title.value)))
      && (patch.description.Some? ==> DescriptionValid(Strip(patch.description.value)))
      && (patch.priority.Some? ==> ParsePriority(patch.priority.value).Some?)
      && (patch.status.Some? ==> ParseStatus(patch.status.value).Some?)
      && AssigneeIdValid(users, patch.assignedToId)
    ensures !r.Ok? ==> r == BadRequest
    ensures r.Ok? ==> (r.value.title.Some? <==> patch.title.Some?)
    ensures r.Ok? && patch.title.Some? ==> r.value.title.value == Strip(patch.title.value)
    ensures r.Ok? ==> (r.value.description.Some? <==> patch.description.Some?)
    ensures r.Ok? && patch.description.Some? ==> r.value.description.value == Strip(patch.description.value)
    ensures r.Ok? ==> (r.value.isCompleted == patch.isCompleted && r.value.deadline == patch.deadline
      && r.value.assignedTo == patch.assignedToId && r.value.status == patch.status)
    ensures r.Ok? ==> (r.value.priority.Some? <==> patch.priority.Some?)
    ensures r.Ok? && patch.priority.Some? ==> PriorityName(r.value.priority.value) == patch.priority.value
  {
    var title := StripField(patch.title);
    if !partial && title.None? then BadRequest
    else if title.Some? && !TitleValid(title.value) then BadRequest
    else if patch.description.Some? && !DescriptionValid(Strip(patch.description.value)) then BadRequest
    else if patch.priority.Some? && ParsePriority(patch.priority.value).None? then BadRequest
    else if patch.status.Some? && !CheckStatusField(patch.status.value).Ok? then BadRequest
    else if !AssigneeIdValid(users, patch.assignedToId) then BadRequest
    else
      var priority := if patch.priority.Some? then ParsePriority(patch.priority.value) else None;
      Ok(PatchData(title, StripField(patch.description), patch.isCompleted, patch.deadline, priority,
                   patch.assignedToId, patch.status))
  }

  /**
   * The assignee create() stores: a non-staff requester is always assigned the
   * task, whatever was submitted; a staff requester keeps a submitted assignee and
   * gets the task when none was submitted.
   */
  function AssigneeFor(requester: User, submitted: Option<UserId>): (r: UserId)
    ensures !requester.isStaff ==> r == requester.id
    ensures requester.isStaff && submitted.Some? ==> r == submitted.value
    ensures submitted.None? ==> r == requester.id
    ensures r == requester.id || submitted == Some(r)
  {
    if !requester.isStaff || submitted.None? then requester.id else submitted.value
  }

  /**
   * TaskSerializer.create: fill in the assignee, owner and creator, then save the
   * new row under the next id.
   */
  method CreateTask(db: Store, requester: User, data: TaskData, now: int) returns (task: Task)
    requires db.Valid()
    requires requester.id in db.users
    requires AssigneeIdValid(db.users, data.assignedTo)
    modifies db
    ensures db.Valid()
    ensures task.id == old(db.nextTaskId) && task.createdAt == now
    ensures task.user == requester.id && task.createdBy == requester.id
    ensures task.assignedTo == AssigneeFor(requester, data.assignedTo)
    ensures task.title == data.title && task.description == data.description
    ensures task.isCompleted == data.isCompleted && task.deadline == data.deadline
    ensures task.priority == data.priority
    ensures task.status == DeriveStatus(data.isCompleted, data.deadline, now)
    ensures db.State() == old(db.State()).(tasks := old(db.tasks) + [task], nextTaskId := old(db.nextTaskId) + 1)
  {
    var assignee := data.assignedTo;
    if !requester.isStaff || assignee.None? {
      assignee := Some(requester.id);
    }
    var row := Task(db.nextTaskId, requester.id, data.title, data.description, data.isCompleted,
                    now, requester.id, data.deadline, data.priority, assignee.value, InProgress);
    assert db.nextTaskId !in TaskIds(db.tasks) by {
      assert TasksValid(db.State());
    }
    task := db.SaveTask(row, now);
  }

  /**
   * super().update: the fields present in the request replace the row's; the
   * read-only fields (id, owner, creator, creation time) are never written, and the
   * status is left for save() to derive.
   */
  function ApplyPatch(t: Task, d: PatchData): (r: Task)
    ensures r.id == t.id && r.user == t.user && r.createdBy == t.createdBy && r.createdAt == t.createdAt
    ensures r.status == t.status
    ensures d.title.Some? ==> r.title == d.title.value
    ensures d.title.None? ==> r.title == t.title
    ensures d.description.Some? ==> r.description == d.description.value
    ensures d.description.None? ==> r.description == t.description
    ensures d.isCompleted.Some? ==> r.isCompleted == d.isCompleted.value
    ensures d.isCompleted.None? ==> r.isCompleted == t.isCompleted
    ensures d.deadline.Some? ==> r.deadline == d.deadline.value
    ensures d.deadline.None? ==> r.deadline == t.deadline
    ensures d.priority.Some? ==> r.priority == d.priority.value
    ensures d.priority.None? ==> r.priority == t.priority
    ensures d.assignedTo.Some? ==> r.assignedTo == d.assignedTo.value
    ensures d.assignedTo.None? ==> r.assignedTo == t.assignedTo
    ensures d == PatchData(None, None, None, None, None, None, d.status) ==> r == t
  {
    t.(title := if d.title.Some? then d.title.value else t.title,
       description := if d.description.Some? then d.description.value else t.description,
       isCompleted := if d.isCompleted.Some? then d.isCompleted.value else t.isCompleted,
       deadline := if d.deadline.Some? then d.deadline.value else t.deadline,
       priority := if d.priority.Some? then d.priority.value else t.priority,
       assignedTo := if d.assignedTo.Some? then d.assignedTo.value else t.assignedTo)
  }

  function StatusChangeText(title: string, fromLabel: string, toLabel: string): string
  {
    "Status zadania '" + title + "' został zmieniony z '" + fromLabel + "' na '" + toLabel + "'."
  }

  /**
   * The activity update() adds: one entry, only when a status was submitted and it
   * differs from the stored one; it goes to the (updated) assignee, is marked as
   * caused by the requester, and names both statuses by their labels.  The new
   * label is the submitted one, even where save then stored a different status.
   * UnchangedStatusIsSilent states the partner fact: resubmitting the stored status,
   * or none, logs nothing.
   */
  function StatusChangeActivities(oldStatus: Status, newStatus: Option<string>, updated: Task,
                                  actor: UserId, now: int): (r: seq<Activity>)
    ensures |r| <= 1
    ensures r != [] <==> newStatus.Some? && newStatus.value != "" && newStatus.value != StatusCode(oldStatus)
    ensures r != [] ==> r[0] == Activity(updated.assignedTo,
      StatusChangeText(updated.title, LabelOf(StatusCode(oldStatus)), LabelOf(newStatus.value)), now, Some(actor))
  {
    if newStatus.Some? && newStatus.value != "" && newStatus.value != StatusCode(oldStatus) then
      [Activity(updated.assignedTo,
                StatusChangeText(updated.title, LabelOf(StatusCode(oldStatus)), LabelOf(newStatus.value)),
                now, Some(actor))]
    else []
  }

  /** Submitting the status a task already has, or none, logs no status change. */
  lemma UnchangedStatusIsSilent(t: Task, updated: Task, actor: UserId, now: int)
    ensures StatusChangeActivities(t.status, Some(StatusCode(t.status)), updated, actor, now) == []
    ensures StatusChangeActivities(t.status, None, updated, actor, now) == []
  {
  }

  /**
   * TaskSerializer.update: save the patched row in place, then log the status
   * change, if any.
   */
  method UpdateTask(db: Store, requester: UserId, instance: Task, data: PatchData, now: int)
    returns (updated: Task)
    requires db.Valid()
    requires requester in db.users
    requires instance in db.tasks
    requires AssigneeIdValid(db.users, data.assignedTo)
    modifies db
    ensures db.Valid()
    ensures updated == WithDerivedStatus(ApplyPatch(instance, data), now)
    ensures old(TaskIndex(db.tasks, instance.id)).Some?
    ensures db.State() == old(db.State()).(
      tasks := old(db.tasks)[old(TaskIndex(db.tasks, instance.id)).value := updated],
      activities := old(db.activities) + StatusChangeActivities(instance.status, data.status, updated, requester, now))
  {
    var oldStatus := instance.status;
    var newStatus := data.status;
    var row := ApplyPatch(instance, data);
    assert instance.id in TaskIds(db.tasks);
    assert TaskRefsValid(instance, db.users) by {
      assert TasksValid(db.State());
    }
    updated := db.SaveTask(row, now);
    if newStatus.Some? && newStatus.value != "" && newStatus.value != StatusCode(oldStatus) {
      var oldLabel := LabelOf(StatusCode(oldStatus));
      var newLabel := LabelOf(newStatus.value);
      LogActivity(db, updated.assignedTo, StatusChangeText(updated.title, oldLabel, newLabel), now, Some(requester));
    }
  }

  /** `order_by('-created_at')`: a may be listed before b when it is no older. */
  predicate NoOlder(a: Comment, b: Comment)
  {
    a.createdAt >= b.createdAt
  }

  lemma NoOlderIsTotalPreorder()
    ensures TotalPreorder(NoOlder)
  {
  }

  function Min(a: int, b: int): int
  {
    if a <= b then a else b
  }

  /** The comments of one task (`obj.comments`). */
  function CommentsOf(comments: seq<Comment>, task: TaskId): (r: seq<Comment>)
    ensures forall c :: c in r <==> c in comments && c.taskId == task
  {
    Filter(comments, (c: Comment) => c.taskId == task)
  }

  /**
   * get_recent_comments: the task's two newest comments, newest first (all of them
   * if it has fewer); no comment left out is newer than one shown.
   */
  function RecentComments(comments: seq<Comment>, task: TaskId): (r: seq<Comment>)
    ensures |r| == Min(2, |CommentsOf(comments, task)|)
    ensures forall c :: c in r ==> c in comments && c.taskId == task
    ensures multiset(r) <= multiset(CommentsOf(comments, task))
    ensures Ordered(r, NoOlder)
    ensures forall a, b :: a in r && b in multiset(CommentsOf(comments, task)) - multiset(r) ==> NoOlder(a, b)
  {
    NoOlderIsTotalPreorder();
    var sorted := Sort(CommentsOf(comments, task), NoOlder);
    assert multiset(sorted) == multiset(CommentsOf(comments, task));
    var k := Min(2, |sorted|);
    PrefixFirst(sorted, k, NoOlder);
    assert forall c :: c in sorted[..k] ==> c in multiset(sorted);
    sorted[..k]
  }
}
