/**
 * The task side of the schema (api/models.py): users, tasks with their priority and
 * derived status, comments and activity-log entries.  Times are integer instants
 * (seconds); a calendar day is an integer day number.
 */
module ApiModels {
  import opened Base

  type UserId = nat
  type TaskId = nat

  /** The fields of django.contrib.auth's User that the core reads. */
  datatype User = User(id: UserId, username: string, email: string, isStaff: bool)

  /** PRIORITY_CHOICES: Wysoki, Średni, Niski. */
  datatype Priority = High | Medium | Low

  /** The `priority` field's default. */
  const DefaultPriority: Priority := Medium

  /** The stored (and displayed) value of a priority. */
  function PriorityName(p: Priority): string
  {
    match p
    case High => "Wysoki"
    case Medium => "Średni"
    case Low => "Niski"
  }

  /** The choice field's check on a submitted priority: one of the three names, else rejected. */
  function ParsePriority(s: string): (r: Option<Priority>)
    ensures r.Some? <==> s in {"Wysoki", "Średni", "Niski"}
    ensures r.Some? ==> PriorityName(r.value) == s
  {
    if s == "Wysoki" then Some(High)
    else if s == "Średni" then Some(Medium)
    else if s == "Niski" then Some(Low)
    else None
  }

  lemma PriorityRoundTrip(p: Priority)
    ensures ParsePriority(PriorityName(p)) == Some(p)
  {
  }

  /** STATUS_CHOICES. */
  datatype Status = InProgress | Completed | Overdue | Upcoming

  /** The stored value of a status. */
  function StatusCode(s: Status): string
  {
    match s
    case InProgress => "in_progress"
    case Completed => "completed"
    case Overdue => "overdue"
    case Upcoming => "upcoming"
  }

  /** Distinct statuses are stored as distinct values, none of them empty. */
  lemma StatusCodeInjective(a: Status, b: Status)
    ensures StatusCode(a) == StatusCode(b) <==> a == b
    ensures StatusCode(a) != ""
  {
  }

  /** The display name STATUS_CHOICES gives each status. */
  function StatusDisplay(s: Status): string
  {
    match s
    case InProgress => "W toku"
    case Completed => "Ukończone"
    case Overdue => "Po terminie"
    case Upcoming => "Nadchodzące"
  }

  /** The choice field's check on a submitted status: one of the four stored values, else rejected. */
  function ParseStatus(code: string): (r: Option<Status>)
    ensures r.Some? <==> code in {"in_progress", "completed", "overdue", "upcoming"}
    ensures r.Some? ==> StatusCode(r.value) == code
  {
    if code == "in_progress" then Some(InProgress)
    else if code == "completed" then Some(Completed)
    else if code == "overdue" then Some(Overdue)
    else if code == "upcoming" then Some(Upcoming)
    else None
  }

  datatype Task = Task(
    id: TaskId,
    user: UserId,
    title: string,
    description: string,
    isCompleted: bool,
    createdAt: int,
    createdBy: UserId,
    deadline: Option<int>,
    priority: Priority,
    assignedTo: UserId,
    status: Status)

  /**
   * The status Task.save writes: completed if the task is completed, whatever its
   * deadline; otherwise overdue if the deadline has passed, upcoming if it has not
   * (a deadline equal to now is upcoming), and in progress if there is no deadline.
   */
  function DeriveStatus(isCompleted: bool, deadline: Option<int>, now: int): (s: Status)
    ensures s == Completed <==> isCompleted
    ensures s == Overdue <==> !isCompleted && deadline.Some? && deadline.value < now
    ensures s == Upcoming <==> !isCompleted && deadline.Some? && now <= deadline.value
    ensures s == InProgress <==> !isCompleted && deadline.None?
  {
    if isCompleted then Completed
    else if deadline.Some? then
      if deadline.value < now then Overdue else Upcoming
    else InProgress
  }

  /**
   * What every stored task satisfies, whenever it was last saved: the status says
   * "completed" exactly when the task is, and an uncompleted task is "in progress"
   * exactly when it has no deadline.  (Only the passage of time, which can turn
   * "upcoming" into "overdue", is not captured.)
   */
  predicate StatusInvariant(t: Task)
  {
    && (t.status == Completed <==> t.isCompleted)
    && (!t.isCompleted ==> (t.status == InProgress <==> t.deadline.None?))
  }

  /** The row as Task.save leaves it: only its status is replaced. */
  function WithDerivedStatus(t: Task, now: int): Task
  {
    t.(status := DeriveStatus(t.isCompleted, t.deadline, now))
  }

  /**
   * Saving discards whatever status the row had, keeps the invariant, changes nothing
   * else, and saving again at the same instant changes nothing.
   */
  lemma SaveProperties(t: Task, s: Status, now: int)
    ensures WithDerivedStatus(t.(status := s), now) == WithDerivedStatus(t, now)
    ensures StatusInvariant(WithDerivedStatus(t, now))
    ensures WithDerivedStatus(t, now).(status := t.status) == t
    ensures WithDerivedStatus(WithDerivedStatus(t, now), now) == WithDerivedStatus(t, now)
  {
  }

  datatype Comment = Comment(taskId: TaskId, author: UserId, content: string, createdAt: int)

  /** An activity-log entry: `user` is whose feed it shows in, `sourceUser` who caused it. */
  datatype Activity = Activity(user: UserId, action: string, createdAt: int, sourceUser: Option<UserId>)

  const SecondsPerDay: int := 86400

  /** The calendar day of an instant (`deadline__date`), in UTC. */
  function DayOf(instant: int): int
  {
    instant / SecondsPerDay
  }
}
