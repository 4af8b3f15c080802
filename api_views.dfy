/**
 * api/views.py: the task view set (the second TaskViewSet, which replaces the
 * first), the statistics view with its overdue sweep, the activity list, and
 * comment creation.
 */
module ApiViews {
  import opened Base
  import opened Sorting
  import opened ApiModels
  import opened Db
  import opened ApiUtils
  import opened ApiSignals
  import opened ApiSerializers

  // ---------------------------------------------------------------------------
  // get_queryset and get_object

  /** The role rule of get_queryset: staff see every task, anyone else the tasks assigned to them. */
  predicate Visible(requester: User, t: Task)
  {
    requester.isStaff || t.assignedTo == requester.id
  }

  /**
   * `order_by('deadline').reverse()`: a may be listed before b when its deadline is
   * no earlier; tasks without a deadline come after all others.
   */
  predicate LaterDeadline(a: Task, b: Task)
  {
    b.deadline.None? || (a.deadline.Some? && a.deadline.value >= b.deadline.value)
  }

  lemma LaterDeadlineIsTotalPreorder()
    ensures TotalPreorder(LaterDeadline)
  {
    forall a: Task, b: Task, c: Task | LaterDeadline(a, b) && LaterDeadline(b, c)
      ensures LaterDeadline(a, c)
    {
      if c.deadline.Some? {
        assert b.deadline.Some? && a.deadline.Some?;
      }
    }
  }

  /**
   * TaskViewSet.get_queryset: each task the requester may see exactly once, latest
   * deadline first.
   */
  function TaskQuery(tasks: seq<Task>, requester: User): (r: seq<Task>)
    ensures forall t :: t in r <==> t in tasks && (requester.isStaff || t.assignedTo == requester.id)
    ensures multiset(r) == multiset(Filter(tasks, (t: Task) => Visible(requester, t)))
    ensures requester.isStaff ==> multiset(r) == multiset(tasks)
    ensures Ordered(r, LaterDeadline)
  {
    LaterDeadlineIsTotalPreorder();
    var visible := Filter(tasks, (t: Task) => Visible(requester, t));
    assert forall t :: t in visible <==> t in tasks && Visible(requester, t);
    var r := Sort(visible, LaterDeadline);
    assert forall t :: t in r <==> t in multiset(r);
    assert forall t :: t in visible <==> t in multiset(visible);
    if requester.isStaff then
      FilterAll(tasks, (t: Task) => Visible(requester, t));
      r
    else r
  }

  /**
   * get_object: the position of the task with this id, provided the requester may
   * see it; a task outside their queryset is answered as if it did not exist.
   */
  function GetObject(tasks: seq<Task>, requester: User, id: TaskId): (r: Option<nat>)
    requires UniqueTaskIds(tasks)
    ensures r.Some? ==> r.value < |tasks| && tasks[r.value].id == id && tasks[r.value] in TaskQuery(tasks, requester)
    ensures r.Some? ==> r == TaskIndex(tasks, id)
    ensures r.None? <==> forall t :: t in TaskQuery(tasks, requester) ==> t.id != id
  {
    match TaskIndex(tasks, id)
    case None => None
    case Some(i) =>
      if Visible(requester, tasks[i]) then Some(i)
      else
        assert forall t :: t in tasks && t.id == id ==> t == tasks[i] by {
          forall t | t in tasks && t.id == id ensures t == tasks[i] {
            var k :| 0 <= k < |tasks| && tasks[k] == t;
            assert k == i;
          }
        }
        None
  }

  // ---------------------------------------------------------------------------
  // perform_create

  function CreatedText(title: string): string
  {
    "Utworzyłeś zadanie: " + title
  }

  function AssignedText(title: string, assigneeName: string): string
  {
    "Przydzieliłeś zadanie '" + title + "' dla " + assigneeName
  }

  function ReceivedText(title: string): string
  {
    "Otrzymałeś nowe zadanie: " + title
  }

  /**
   * The entries perform_create logs: one for the creator, first, and, when the
   * assignee is someone else, one for the assignee naming the creator as its source.
   */
  function CreationActivities(creator: UserId, task: Task, assigneeName: string, now: int): (r: seq<Activity>)
    ensures |r| == if task.assignedTo == creator then 1 else 2
    ensures r[0].user == creator && r[0].sourceUser == None
    ensures forall a :: a in r ==> a.createdAt == now && (a.sourceUser.Some? <==> a.user != creator)
    ensures forall a :: a in r && a.user != creator ==> a.user == task.assignedTo && a.sourceUser == Some(creator)
    ensures task.assignedTo == creator ==> r[0].action == CreatedText(task.title)
    ensures task.assignedTo != creator ==>
      r[0].action == AssignedText(task.title, assigneeName) && r[1].action == ReceivedText(task.title)
  {
    if creator == task.assignedTo then
      [Activity(creator, CreatedText(task.title), now, None)]
    else
      [Activity(creator, AssignedText(task.title, assigneeName), now, None),
       Activity(task.assignedTo, ReceivedText(task.title), now, Some(creator))]
  }

  /** The creator and the assignee each find exactly one entry about the new task in their feed. */
  lemma CreationFeeds(creator: UserId, task: Task, assigneeName: string, now: int)
    ensures Count(CreationActivities(creator, task, assigneeName, now), (a: Activity) => a.user == creator) == 1
    ensures Count(CreationActivities(creator, task, assigneeName, now), (a: Activity) => a.user == task.assignedTo) == 1
  {
    var r := CreationActivities(creator, task, assigneeName, now);
    if creator == task.assignedTo {
      FilterSmall(r[0], r[0], (a: Activity) => a.user == creator);
      FilterSmall(r[0], r[0], (a: Activity) => a.user == task.assignedTo);
    } else {
      assert r == [r[0], r[1]];
      FilterSmall(r[0], r[1], (a: Activity) => a.user == creator);
      FilterSmall(r[0], r[1], (a: Activity) => a.user == task.assignedTo);
    }
  }

  /** The logging half of perform_create. */
  method LogCreation(db: Store, creator: UserId, task: Task, now: int)
    requires db.Valid()
    requires creator in db.users && task.assignedTo in db.users
    modifies db
    ensures db.Valid()
    ensures db.State() == old(db.State()).(
      activities := old(db.activities) + CreationActivities(creator, task, old(db.users)[task.assignedTo].username, now))
  {
    ghost var expected := CreationActivities(creator, task, db.users[task.assignedTo].username, now);
    var assignedTo := task.assignedTo;
    if creator == assignedTo {
      assert expected == [Activity(creator, CreatedText(task.title), now, None)];
      LogActivity(db, creator, CreatedText(task.title), now);
    } else {
      var name := db.users[assignedTo].username;
      assert expected == [Activity(creator, AssignedText(task.title, name), now, None),
                          Activity(assignedTo, ReceivedText(task.title), now, Some(creator))];
      LogActivity(db, creator, AssignedText(task.title, name), now);
      LogActivity(db, assignedTo, ReceivedText(task.title), now, Some(creator));
    }
  }

  /**
   * POST /tasks/: validate, create (TaskSerializer.create), then log the creation.
   * A rejected request changes nothing.
   */
  method PerformCreate(db: Store, requester: UserId, input: TaskInput, now: int) returns (r: Response<Task>)
    requires db.Valid()
    requires requester in db.users
    modifies db
    ensures db.Valid()
    ensures r.Created? || r == BadRequest
    ensures r.Created? <==> ValidateTaskInput(old(db.users), input).Ok?
    ensures r == BadRequest ==> db.State() == old(db.State())
    ensures r.Created? ==>
      && r.value.id == old(db.nextTaskId) && r.value.createdAt == now
      && r.value.user == requester && r.value.createdBy == requester
      && r.value.assignedTo == AssigneeFor(old(db.users)[requester], input.assignedToId)
      && r.value.title == Strip(input.title) && r.value.description == Strip(input.description)
      && r.value.isCompleted == input.isCompleted && r.value.deadline == input.deadline
      && r.value.status == DeriveStatus(input.isCompleted, input.deadline, now)
      && (input.priority.None? ==> r.value.priority == DefaultPriority)
      && (input.priority.Some? ==> PriorityName(r.value.priority) == input.priority.value)
      && r.value.assignedTo in old(db.users)
      && db.State() == old(db.State()).(
           tasks := old(db.tasks) + [r.value],
           nextTaskId := old(db.nextTaskId) + 1,
           activities := old(db.activities)
             + CreationActivities(requester, r.value, old(db.users)[r.value.assignedTo].username, now))
  {
    var user := db.users[requester];
    assert user.id == requester by {
      assert UsersValid(db.State());
    }
    var v := ValidateTaskInput(db.users, input);
    if !v.Ok? {
      return BadRequest;
    }
    var task := CreateTask(db, user, v.value, now);
    LogCreation(db, requester, task, now);
    r := Created(task);
  }

  // ---------------------------------------------------------------------------
  // perform_update

  /** The fields perform_update compares, in the order it compares them. */
  datatype Field = TitleField | DescriptionField | DeadlineField | CompletionField | PriorityField

  function Rank(f: Field): nat
  {
    match f
    case TitleField => 0
    case DescriptionField => 1
    case DeadlineField => 2
    case CompletionField => 3
    case PriorityField => 4
  }

  predicate RankBefore(a: Field, b: Field)
  {
    Rank(a) < Rank(b)
  }

  predicate Differs(before: Task, after: Task, f: Field)
  {
    match f
    case TitleField => before.title != after.title
    case DescriptionField => before.description != after.description
    case DeadlineField => before.deadline != after.deadline
    case CompletionField => before.isCompleted != after.isCompleted
    case PriorityField => before.priority != after.priority
  }

  function CompletionWord(done: bool): string
  {
    if done then "ukończone" else "nieukończone"
  }

  /** The change-list fragment for one field. */
  function Fragment(before: Task, after: Task, f: Field): string
  {
    match f
    case TitleField => "zmieniono tytuł"
    case DescriptionField => "zmieniono opis"
    case DeadlineField => "zmieniono termin"
    case CompletionField =>
      "zmieniono status z " + CompletionWord(before.isCompleted) + " na " + CompletionWord(after.isCompleted)
    case PriorityField =>
      "zmieniono priorytet z " + PriorityName(before.priority) + " na " + PriorityName(after.priority)
  }

  /** One comparison of perform_update: a field that differs is added at the end. */
  function Step(fs: seq<Field>, f: Field, before: Task, after: Task): seq<Field>
  {
    if Differs(before, after, f) then fs + [f] else fs
  }

  /** The fields whose values differ, compared in the order perform_update compares them. */
  function ChangedFields(before: Task, after: Task): seq<Field>
  {
    var s0 := Step([], TitleField, before, after);
    var s1 := Step(s0, DescriptionField, before, after);
    var s2 := Step(s1, DeadlineField, before, after);
    var s3 := Step(s2, CompletionField, before, after);
    Step(s3, PriorityField, before, after)
  }

  /** A comparison adds its field exactly when it differs, and keeps the fields in rank order. */
  lemma StepSpec(fs: seq<Field>, f: Field, before: Task, after: Task)
    requires Ordered(fs, RankBefore)
    requires forall g :: g in fs ==> Rank(g) < Rank(f)
    ensures forall g :: g in Step(fs, f, before, after) <==> g in fs || (g == f && Differs(before, after, f))
    ensures Ordered(Step(fs, f, before, after), RankBefore)
    ensures forall g :: g in Step(fs, f, before, after) ==> Rank(g) <= Rank(f)
  {
    if Differs(before, after, f) {
      var r := fs + [f];
      forall i, j | 0 <= i < j < |r| ensures RankBefore(r[i], r[j]) {
        if j == |fs| {
          assert r[i] == fs[i] && fs[i] in fs;
        } else {
          assert r[i] == fs[i] && r[j] == fs[j];
        }
      }
    }
  }

  /**
   * The changed fields are exactly the fields that differ, listed in the fixed
   * order title, description, deadline, completion, priority, each at most once.
   */
  lemma {:induction false} ChangedFieldsSpec(before: Task, after: Task)
    ensures forall f :: f in ChangedFields(before, after) <==> Differs(before, after, f)
    ensures Ordered(ChangedFields(before, after), RankBefore)
  {
    var s0 := Step([], TitleField, before, after);
    StepSpec([], TitleField, before, after);
    var s1 := Step(s0, DescriptionField, before, after);
    StepSpec(s0, DescriptionField, before, after);
    var s2 := Step(s1, DeadlineField, before, after);
    StepSpec(s1, DeadlineField, before, after);
    var s3 := Step(s2, CompletionField, before, after);
    StepSpec(s2, CompletionField, before, after);
    StepSpec(s3, PriorityField, before, after);
  }

  /** One fragment per field, in the order of the fields. */
  function Fragments(before: Task, after: Task, fs: seq<Field>): (r: seq<string>)
    ensures |r| == |fs|
  {
    if fs == [] then [] else [Fragment(before, after, fs[0])] + Fragments(before, after, fs[1..])
  }

  lemma {:induction false} FragmentsSnoc(before: Task, after: Task, fs: seq<Field>, f: Field)
    ensures Fragments(before, after, fs + [f]) == Fragments(before, after, fs) + [Fragment(before, after, f)]
  {
    if fs == [] {
      assert fs + [f] == [f];
      assert [f][1..] == [];
    } else {
      assert (fs + [f])[0] == fs[0] && (fs + [f])[1..] == fs[1..] + [f];
      FragmentsSnoc(before, after, fs[1..], f);
    }
  }

  lemma {:induction false} FragmentsAt(before: Task, after: Task, fs: seq<Field>)
    ensures forall i :: 0 <= i < |fs| ==> Fragments(before, after, fs)[i] == Fragment(before, after, fs[i])
  {
    if fs != [] {
      FragmentsAt(before, after, fs[1..]);
      assert forall i :: 1 <= i < |fs| ==> fs[1..][i - 1] == fs[i];
    }
  }

  /** The change list: one fragment per changed field, in field order. */
  function ChangeList(before: Task, after: Task): seq<string>
  {
    Fragments(before, after, ChangedFields(before, after))
  }

  /**
   * The change list holds one fragment per field that differs, in field order,
   * and so is empty exactly when none of the five compared fields changed.
   */
  lemma ChangeListSpec(before: Task, after: Task)
    ensures |ChangeList(before, after)| == |ChangedFields(before, after)|
    ensures forall i :: 0 <= i < |ChangedFields(before, after)| ==>
      ChangeList(before, after)[i] == Fragment(before, after, ChangedFields(before, after)[i])
    ensures ChangeList(before, after) == [] <==>
      && before.title == after.title && before.description == after.description
      && before.deadline == after.deadline && before.isCompleted == after.isCompleted
      && before.priority == after.priority
  {
    var fs := ChangedFields(before, after);
    ChangedFieldsSpec(before, after);
    FragmentsAt(before, after, fs);
    if fs != [] {
      assert fs[0] in fs;
    }
    if before.title != after.title { assert TitleField in fs; }
    if before.description != after.description { assert DescriptionField in fs; }
    if before.deadline != after.deadline { assert DeadlineField in fs; }
    if before.isCompleted != after.isCompleted { assert CompletionField in fs; }
    if before.priority != after.priority { assert PriorityField in fs; }
  }

  /**
   * The `changes` list perform_update builds by successive appends, one fragment
   * per changed field; it is the change list.
   */
  method CollectChanges(before: Task, after: Task) returns (changes: seq<string>)
    ensures changes == ChangeList(before, after)
  {
    ghost var fs: seq<Field> := [];
    changes := [];
    if before.title != after.title {
      FragmentsSnoc(before, after, fs, TitleField);
      changes := changes + ["zmieniono tytuł"];
    }
    fs := Step(fs, TitleField, before, after);
    if before.description != after.description {
      FragmentsSnoc(before, after, fs, DescriptionField);
      changes := changes + ["zmieniono opis"];
    }
    fs := Step(fs, DescriptionField, before, after);
    if before.deadline != after.deadline {
      FragmentsSnoc(before, after, fs, DeadlineField);
      changes := changes + ["zmieniono termin"];
    }
    fs := Step(fs, DeadlineField, before, after);
    if before.isCompleted != after.isCompleted {
      FragmentsSnoc(before, after, fs, CompletionField);
      var was := if before.isCompleted then "ukończone" else "nieukończone";
      var doneWord := if after.isCompleted then "ukończone" else "nieukończone";
      changes := changes + ["zmieniono status z " + was + " na " + doneWord];
    }
    fs := Step(fs, CompletionField, before, after);
    if before.priority != after.priority {
      FragmentsSnoc(before, after, fs, PriorityField);
      changes := changes + ["zmieniono priorytet z " + PriorityName(before.priority) + " na " + PriorityName(after.priority)];
    }
    fs := Step(fs, PriorityField, before, after);
  }

  function UpdatedText(title: string, joined: string): string
  {
    "Zadanie '" + title + "' – " + joined
  }

  function ModifiedText(title: string, joined: string): string
  {
    "Zadanie '" + title + "' zostało zmodyfikowane – " + joined
  }

  /**
   * The entries perform_update logs after saving: nothing when no compared field
   * changed; otherwise one for the actor and, exactly when the (updated) assignee
   * is someone else, one for the assignee, both listing the same joined fragments.
   */
  function ChangeActivities(actor: UserId, before: Task, after: Task, now: int): (r: seq<Activity>)
    ensures r == [] <==> ChangeList(before, after) == []
    ensures |r| <= 2
    ensures |r| == 2 <==> ChangeList(before, after) != [] && after.assignedTo != actor
    ensures r != [] ==> r[0] == Activity(actor, UpdatedText(after.title, Join(ChangeList(before, after), ", ")), now, None)
    ensures |r| == 2 ==>
      r[1] == Activity(after.assignedTo, ModifiedText(after.title, Join(ChangeList(before, after), ", ")), now, None)
  {
    var changes := ChangeList(before, after);
    if changes == [] then []
    else
      var joined := Join(changes, ", ");
      [Activity(actor, UpdatedText(after.title, joined), now, None)]
        + (if after.assignedTo != actor then [Activity(after.assignedTo, ModifiedText(after.title, joined), now, None)] else [])
  }

  /** The logging half of perform_update: diff the row before and after, and log the diff. */
  method LogChanges(db: Store, actor: UserId, before: Task, after: Task, now: int)
    requires db.Valid()
    requires actor in db.users && after.assignedTo in db.users
    modifies db
    ensures db.Valid()
    ensures db.State() == old(db.State()).(activities := old(db.activities) + ChangeActivities(actor, before, after, now))
  {
    var changes := CollectChanges(before, after);
    if changes != [] {
      var joined := Join(changes, ", ");
      LogActivity(db, actor, UpdatedText(after.title, joined), now);
      if after.assignedTo != actor {
        LogActivity(db, after.assignedTo, ModifiedText(after.title, joined), now);
      }
    }
  }

  /**
   * PUT/PATCH /tasks/<id>/ (a PATCH is `partial`): find the task in the requester's
   * queryset, validate, update (TaskSerializer.update, with its status activity),
   * then log the diff.  A task outside the queryset is 404 and a rejected request
   * 400, changing nothing; any other request succeeds.
   */
  method PerformUpdate(db: Store, requester: UserId, id: TaskId, patch: TaskPatch, partial: bool, now: int)
    returns (r: Response<Task>)
    requires db.Valid()
    requires requester in db.users
    modifies db
    ensures db.Valid()
    ensures r.Ok? || r == NotFound || r == BadRequest
    ensures old(UniqueTaskIds(db.tasks))
    ensures GetObject(old(db.tasks), old(db.users)[requester], id).None? ==>
      r == NotFound && db.State() == old(db.State())
    ensures GetObject(old(db.tasks), old(db.users)[requester], id).Some? && !ValidatePatch(old(db.users), patch, partial).Ok? ==>
      r == BadRequest && db.State() == old(db.State())
    ensures GetObject(old(db.tasks), old(db.users)[requester], id).Some? && ValidatePatch(old(db.users), patch, partial).Ok? ==>
      r.Ok?
    ensures r.Ok? ==>
      && GetObject(old(db.tasks), old(db.users)[requester], id).Some?
      && ValidatePatch(old(db.users), patch, partial).Ok?
      && var i := GetObject(old(db.tasks), old(db.users)[requester], id).value;
         var before := old(db.tasks)[i];
         && r.value == WithDerivedStatus(ApplyPatch(before, ValidatePatch(old(db.users), patch, partial).value), now)
         && db.State() == old(db.State()).(
              tasks := old(db.tasks)[i := r.value],
              activities := old(db.activities)
                + StatusChangeActivities(before.status, patch.status, r.value, requester, now)
                + ChangeActivities(requester, before, r.value, now))
  {
    var user := db.users[requester];
    assert user.id == requester && UniqueTaskIds(db.tasks) by {
      assert UsersValid(db.State()) && TasksValid(db.State());
    }
    var found := GetObject(db.tasks, user, id);
    if found.None? {
      return NotFound;
    }
    var v := ValidatePatch(db.users, patch, partial);
    if !v.Ok? {
      return BadRequest;
    }
    var oldTask := db.tasks[found.value];
    ghost var midActivities := db.activities + StatusChangeActivities(oldTask.status, v.value.status, WithDerivedStatus(ApplyPatch(oldTask, v.value), now), requester, now);
    var updated := UpdateTask(db, requester, oldTask, v.value, now);
    assert db.activities == midActivities;
    LogChanges(db, requester, oldTask, updated, now);
    r := Ok(updated);
  }

  // ---------------------------------------------------------------------------
  // perform_destroy

  function DeletedText(title: string): string
  {
    "Usunąłeś zadanie: '" + title + "'"
  }

  /** With distinct ids, deleting by id removes exactly one row if the id is present, none otherwise. */
  lemma {:induction false} DeleteRemovesOne(tasks: seq<Task>, id: TaskId)
    requires UniqueTaskIds(tasks)
    ensures |Filter(tasks, (t: Task) => t.id != id)| == |tasks| - (if id in TaskIds(tasks) then 1 else 0)
  {
    if tasks != [] {
      var rest := tasks[1..];
      assert UniqueTaskIds(rest) by {
        forall i, j | 0 <= i < j < |rest| ensures rest[i].id != rest[j].id {
          assert rest[i] == tasks[i + 1] && rest[j] == tasks[j + 1];
        }
      }
      assert TaskIds(tasks) == {tasks[0].id} + TaskIds(rest) by {
        assert tasks == [tasks[0]] + rest;
      }
      if tasks[0].id == id {
        assert id !in TaskIds(rest) by {
          forall t | t in rest ensures t.id != id {
            var k :| 0 <= k < |rest| && rest[k] == t;
            assert tasks[k + 1] == t;
          }
        }
        FilterAll(rest, (t: Task) => t.id != id);
      } else {
        DeleteRemovesOne(rest, id);
      }
    }
  }

  /**
   * DELETE /tasks/<id>/: a task outside the requester's queryset is 404 and changes
   * nothing; otherwise one entry goes to the deleter's log and the task goes, with
   * its comments.
   */
  method PerformDestroy(db: Store, requester: UserId, id: TaskId, now: int) returns (r: Response<()>)
    requires db.Valid()
    requires requester in db.users
    modifies db
    ensures db.Valid()
    ensures r == Ok(()) || r == NotFound
    ensures old(UniqueTaskIds(db.tasks))
    ensures GetObject(old(db.tasks), old(db.users)[requester], id).None? ==>
      r == NotFound && db.State() == old(db.State())
    ensures GetObject(old(db.tasks), old(db.users)[requester], id).Some? ==>
      && r == Ok(())
      && |db.tasks| == |old(db.tasks)| - 1
      && db.State() == old(db.State()).(
           activities := old(db.activities) + [Activity(requester,
             DeletedText(old(db.tasks)[GetObject(old(db.tasks), old(db.users)[requester], id).value].title), now, None)],
           tasks := Filter(old(db.tasks), (t: Task) => t.id != id),
           comments := Filter(old(db.comments), (c: Comment) => c.taskId != id))
  {
    var user := db.users[requester];
    assert user.id == requester && UniqueTaskIds(db.tasks) by {
      assert UsersValid(db.State()) && TasksValid(db.State());
    }
    var found := GetObject(db.tasks, user, id);
    if found.None? {
      return NotFound;
    }
    var instance := db.tasks[found.value];
    DeleteRemovesOne(db.tasks, id);
    LogActivity(db, requester, DeletedText(instance.title), now);
    db.DeleteTask(instance.id);
    r := Ok(());
  }

  // ---------------------------------------------------------------------------
  // TaskStatsView

  /** The rows the sweep's filter selects: the requester's, uncompleted, past their deadline, not yet overdue or completed. */
  predicate NeedsSweep(t: Task, user: UserId, now: int)
  {
    t.assignedTo == user && !t.isCompleted && t.deadline.Some? && t.deadline.value < now
    && t.status != Overdue && t.status != Completed
  }

  function SweepOne(t: Task, user: UserId, now: int): Task
  {
    if NeedsSweep(t, user, now) then t.(status := Overdue) else t
  }

  /**
   * The table after the sweep's `.update(status="overdue")`: only the status of a
   * row can change, it changes exactly for the selected rows, and it becomes
   * overdue; every other row is untouched.
   */
  function Swept(tasks: seq<Task>, user: UserId, now: int): (r: seq<Task>)
    ensures |r| == |tasks|
    ensures forall i :: 0 <= i < |tasks| ==> r[i].(status := tasks[i].status) == tasks[i]
    ensures forall i :: 0 <= i < |tasks| ==> (r[i] != tasks[i] <==> NeedsSweep(tasks[i], user, now))
    ensures forall i :: 0 <= i < |tasks| && r[i] != tasks[i] ==> r[i].status == Overdue
  {
    seq(|tasks|, i requires 0 <= i < |tasks| => SweepOne(tasks[i], user, now))
  }

  /**
   * On rows that satisfy the status invariant, the sweep keeps it, and afterwards
   * every uncompleted task of the requester whose deadline has passed is overdue.
   */
  lemma SweptSettles(tasks: seq<Task>, user: UserId, now: int)
    requires forall t :: t in tasks ==> StatusInvariant(t)
    ensures forall t :: t in Swept(tasks, user, now) ==> StatusInvariant(t)
    ensures forall t :: (t in Swept(tasks, user, now) && t.assignedTo == user && !t.isCompleted
      && t.deadline.Some? && t.deadline.value < now) ==> t.status == Overdue
  {
    var r := Swept(tasks, user, now);
    forall t | t in r ensures StatusInvariant(t) && ((t.assignedTo == user && !t.isCompleted
      && t.deadline.Some? && t.deadline.value < now) ==> t.status == Overdue)
    {
      var k :| 0 <= k < |r| && r[k] == t;
      assert tasks[k] in tasks;
    }
  }

  /** The sweep keeps ids, owners and every other constrained field, so it keeps the tables valid. */
  lemma SweptValid(s: Tables, user: UserId, now: int)
    requires TablesValid(s)
    ensures TablesValid(s.(tasks := Swept(s.tasks, user, now)))
  {
    var r := Swept(s.tasks, user, now);
    var s' := s.(tasks := r);
    forall x | x in r ensures x.id in TaskIds(s.tasks) && x.id < s.nextTaskId && TaskRefsValid(x, s.users) && StatusInvariant(x) {
      var k :| 0 <= k < |r| && r[k] == x;
      assert s.tasks[k] in s.tasks;
    }
    forall x | x in s.tasks ensures x.id in TaskIds(r) {
      var k :| 0 <= k < |s.tasks| && s.tasks[k] == x;
      assert r[k] in r && r[k].id == x.id;
    }
    assert TaskIds(r) == TaskIds(s.tasks);
    assert UniqueTaskIds(r) by {
      forall i, j | 0 <= i < j < |r| ensures r[i].id != r[j].id {
        assert r[i].id == s.tasks[i].id && r[j].id == s.tasks[j].id;
      }
    }
    assert TasksValid(s');
    assert UsersValid(s') && ChatValid(s');
  }

  /** The sweep as the database runs it: row by row, rewriting the status of each selected row. */
  method SweepOverdue(db: Store, user: UserId, now: int)
    modifies db`tasks
    ensures db.tasks == Swept(old(db.tasks), user, now)
  {
    var i := 0;
    while i < |db.tasks|
      invariant 0 <= i <= |db.tasks| == |old(db.tasks)|
      invariant forall j :: 0 <= j < i ==> db.tasks[j] == SweepOne(old(db.tasks)[j], user, now)
      invariant forall j :: i <= j < |db.tasks| ==> db.tasks[j] == old(db.tasks)[j]
    {
      var t := db.tasks[i];
      if t.assignedTo == user && !t.isCompleted && t.deadline.Some? && t.deadline.value < now
         && t.status != Overdue && t.status != Completed
      {
        db.tasks := db.tasks[i := t.(status := Overdue)];
      }
      i := i + 1;
    }
  }

  /** The response of TaskStatsView. */
  datatype Stats = Stats(
    total: nat,
    completed: nat,
    inProgress: nat,
    overdue: nat,
    upcoming: nat,
    priorityStats: map<Priority, nat>)

  function StatusCount(tasks: seq<Task>, s: Status): nat
  {
    Count(tasks, (t: Task) => t.status == s)
  }

  function PriorityCount(tasks: seq<Task>, p: Priority): nat
  {
    Count(tasks, (t: Task) => t.priority == p)
  }

  /** Every task has exactly one of the four statuses, so the status counts add up to the total. */
  lemma {:induction false} StatusCountsSum(tasks: seq<Task>)
    ensures StatusCount(tasks, Completed) + StatusCount(tasks, InProgress)
          + StatusCount(tasks, Overdue) + StatusCount(tasks, Upcoming) == |tasks|
  {
    if tasks != [] {
      StatusCountsSum(tasks[1..]);
    }
  }

  /** Every task has exactly one of the three priorities, so the priority counts add up to the total. */
  lemma {:induction false} PriorityCountsSum(tasks: seq<Task>)
    ensures PriorityCount(tasks, High) + PriorityCount(tasks, Medium) + PriorityCount(tasks, Low) == |tasks|
  {
    if tasks != [] {
      PriorityCountsSum(tasks[1..]);
    }
  }

  /** The value a `Counter` dict gives a priority, reading an absent key as 0. */
  function CountOf(m: map<Priority, nat>, p: Priority): nat
  {
    if p in m then m[p] else 0
  }

  /** The requester's tasks (`Task.objects.filter(assigned_to=user)`). */
  function AssignedTo(tasks: seq<Task>, user: UserId): (r: seq<Task>)
    ensures forall t :: t in r <==> t in tasks && t.assignedTo == user
  {
    Filter(tasks, (t: Task) => t.assignedTo == user)
  }

  /** The counts TaskStatsView returns over the requester's tasks. */
  function StatsOf(tasks: seq<Task>, user: UserId): Stats
  {
    var mine := AssignedTo(tasks, user);
    Stats(|mine|, StatusCount(mine, Completed), StatusCount(mine, InProgress), StatusCount(mine, Overdue),
          StatusCount(mine, Upcoming),
          map p: Priority | p in {High, Medium, Low} && PriorityCount(mine, p) > 0 :: PriorityCount(mine, p))
  }

  /** A count is positive exactly when some task is counted. */
  lemma PriorityCountPositive(mine: seq<Task>, p: Priority)
    ensures PriorityCount(mine, p) > 0 <==> exists t :: t in mine && t.priority == p
  {
    var f := Filter(mine, (t: Task) => t.priority == p);
    if |f| > 0 {
      assert f[0] in f;
    }
  }

  /**
   * The total counts the requester's tasks, the four status counts add up to it,
   * and so do the counts in `priority_stats`.
   */
  lemma StatsAddUp(tasks: seq<Task>, user: UserId)
    ensures StatsOf(tasks, user).total == |AssignedTo(tasks, user)|
    ensures var r := StatsOf(tasks, user);
      r.completed + r.inProgress + r.overdue + r.upcoming == r.total
    ensures var r := StatsOf(tasks, user);
      CountOf(r.priorityStats, High) + CountOf(r.priorityStats, Medium) + CountOf(r.priorityStats, Low) == r.total
  {
    var mine := AssignedTo(tasks, user);
    StatusCountsSum(mine);
    PriorityCountsSum(mine);
  }

  /** `priority_stats` has a key exactly for each priority that some task of the requester has. */
  lemma PriorityKeys(tasks: seq<Task>, user: UserId)
    ensures forall p :: p in StatsOf(tasks, user).priorityStats <==>
      exists t :: t in tasks && t.assignedTo == user && t.priority == p
  {
    var mine := AssignedTo(tasks, user);
    forall p ensures p in StatsOf(tasks, user).priorityStats <==>
      exists t :: t in tasks && t.assignedTo == user && t.priority == p
    {
      PriorityCountPositive(mine, p);
      assert p == High || p == Medium || p == Low;
    }
  }

  /**
   * GET /tasks/stats/: sweep the requester's overdue tasks, then count theirs.
   * Nothing but the swept statuses changes.
   */
  method TaskStats(db: Store, requester: UserId, now: int) returns (stats: Stats)
    requires db.Valid()
    modifies db
    ensures db.Valid()
    ensures db.State() == old(db.State()).(tasks := Swept(old(db.tasks), requester, now))
    ensures stats == StatsOf(db.tasks, requester)
    ensures forall t :: (t in db.tasks && t.assignedTo == requester && !t.isCompleted && t.deadline.Some?
      && t.deadline.value < now) ==> t.status == Overdue
  {
    SweptValid(db.State(), requester, now);
    assert forall t :: t in db.tasks ==> StatusInvariant(t) by {
      assert TasksValid(db.State());
    }
    SweptSettles(db.tasks, requester, now);
    SweepOverdue(db, requester, now);
    stats := StatsOf(db.tasks, requester);
  }

  // ---------------------------------------------------------------------------
  // ActivityListView

  /** `order_by("-created_at")` on the activity log. */
  predicate NewerActivity(a: Activity, b: Activity)
  {
    a.createdAt >= b.createdAt
  }

  /** The filter of ActivityListView.get_queryset. */
  predicate Listed(requester: User, all: Option<string>, a: Activity)
  {
    if all == Some("true") && requester.isStaff then a.user != requester.id else a.user == requester.id
  }

  /**
   * ActivityListView.get_queryset: a staff member asking for `all=true` gets every
   * entry not in their own feed; anyone else, and staff without the flag, get
   * exactly their own feed; newest first, each entry once.
   */
  function ActivityQuery(activities: seq<Activity>, requester: User, all: Option<string>): (r: seq<Activity>)
    ensures all == Some("true") && requester.isStaff ==>
      forall a :: a in r <==> a in activities && a.user != requester.id
    ensures !(all == Some("true") && requester.isStaff) ==>
      forall a :: a in r <==> a in activities && a.user == requester.id
    ensures multiset(r) == multiset(Filter(activities, (a: Activity) => Listed(requester, all, a)))
    ensures Ordered(r, NewerActivity)
  {
    assert TotalPreorder(NewerActivity);
    var listed := Filter(activities, (a: Activity) => Listed(requester, all, a));
    assert forall a :: a in listed <==> a in activities && Listed(requester, all, a);
    var r := Sort(listed, NewerActivity);
    assert forall a :: a in r <==> a in multiset(r);
    assert forall a :: a in listed <==> a in multiset(listed);
    r
  }

  // ---------------------------------------------------------------------------
  // CommentListCreateView.perform_create

  function CommentedText(title: string): string
  {
    "Dodałeś komentarz do zadania: '" + title + "'"
  }

  /**
   * POST /tasks/<id>/comments/: the content is stripped, and an empty or
   * all-whitespace comment, or one holding a NUL character, is 400.  For an existing task the
   * comment is stored, notify_comment mails the other party, and the author's log
   * gets one entry.  For a missing task the fallback save violates the foreign
   * key, so the request fails and nothing changes.
   */
  method AddComment(db: Store, requester: UserId, taskId: TaskId, content: string, now: int)
    returns (r: Response<Comment>)
    requires db.Valid()
    requires requester in db.users
    modifies db
    ensures db.Valid()
    ensures !ContentValid(Strip(content)) ==> r == BadRequest && db.State() == old(db.State())
    ensures ContentValid(Strip(content)) && taskId !in TaskIds(old(db.tasks)) ==> r == ServerError && db.State() == old(db.State())
    ensures ContentValid(Strip(content)) && taskId in TaskIds(old(db.tasks)) ==>
      && old(TaskIndex(db.tasks, taskId)).Some?
      && var task := old(db.tasks)[old(TaskIndex(db.tasks, taskId)).value];
         && task.createdBy in old(db.users) && task.assignedTo in old(db.users)
         && r == Created(Comment(taskId, requester, Strip(content), now))
         && db.State() == old(db.State()).(
              comments := old(db.comments) + [Comment(taskId, requester, Strip(content), now)],
              outbox := old(db.outbox) + CommentNotices(task, requester, old(db.users)),
              activities := old(db.activities) + [Activity(requester, CommentedText(task.title), now, None)])
  {
    var text := Strip(content);
    if !ContentValid(text) {
      return BadRequest;
    }
    var i := TaskIndex(db.tasks, taskId);
    if i.None? {
      return ServerError;
    }
    var task := db.tasks[i.value];
    assert TaskRefsValid(task, db.users) by {
      assert TasksValid(db.State());
    }
    var comment := Comment(taskId, requester, text, now);
    InsertCommentValid(db.State(), comment);
    db.comments := db.comments + [comment];
    LogTablesValid(db.State(), db.activities, db.outbox + CommentNotices(task, requester, db.users));
    NotifyComment(db, task, requester, true);
    LogActivity(db, requester, CommentedText(task.title), now);
    r := Created(comment);
  }
}
