/** api/utils.py: the activity log and the deadline-reminder mailing. */
module ApiUtils {
  import opened Base
  import opened ApiModels
  import opened Db

  /** log_activity: append one entry to the activity log and change nothing else. */
  method LogActivity(db: Store, user: UserId, action: string, now: int, sourceUser: Option<UserId> := None)
    requires db.Valid()
    requires user in db.users && (sourceUser.Some? ==> sourceUser.value in db.users)
    modifies db
    ensures db.Valid()
    ensures db.State() == old(db.State()).(activities := old(db.activities) + [Activity(user, action, now, sourceUser)])
  {
    assert ActivityRefsValid(Activity(user, action, now, sourceUser), db.users);
    LogTablesValid(db.State(), db.activities + [Activity(user, action, now, sourceUser)], db.outbox);
    db.activities := db.activities + [Activity(user, action, now, sourceUser)];
  }

  /** The tasks whose deadline falls on `day` (`Task.objects.filter(deadline__date=day)`), in table order. */
  function DueOn(tasks: seq<Task>, day: int): (r: seq<Task>)
    ensures forall t :: t in r <==> t in tasks && t.deadline.Some? && DayOf(t.deadline.value) == day
    ensures |r| <= |tasks|
  {
    Filter(tasks, (t: Task) => t.deadline.Some? && DayOf(t.deadline.value) == day)
  }

  /** The task's assignee is a user with a non-empty e-mail address (`recipient and recipient.email`). */
  predicate HasEmail(users: map<UserId, User>, t: Task)
  {
    t.assignedTo in users && users[t.assignedTo].email != ""
  }

  /** The reminder for one task: sent to its assignee's address alone. */
  function ReminderFor(t: Task, users: map<UserId, User>): Email
    requires HasEmail(users, t)
  {
    Email([users[t.assignedTo].email], DeadlineReminder(t.id))
  }

  /** The mail the reminder loop sends for `due`, in order. */
  function ReminderEmails(due: seq<Task>, users: map<UserId, User>): seq<Email>
  {
    if due == [] then []
    else (if HasEmail(users, due[0]) then [ReminderFor(due[0], users)] else []) + ReminderEmails(due[1..], users)
  }

  /**
   * One reminder per due task whose assignee has an address, each to that address
   * alone, and nothing for the others.
   */
  lemma {:induction false} ReminderEmailsSpec(due: seq<Task>, users: map<UserId, User>)
    ensures |ReminderEmails(due, users)| == Count(due, (t: Task) => HasEmail(users, t))
    ensures forall e :: e in ReminderEmails(due, users) ==>
      exists t :: t in due && HasEmail(users, t) && e == ReminderFor(t, users)
    ensures forall t :: t in due && HasEmail(users, t) ==> ReminderFor(t, users) in ReminderEmails(due, users)
  {
    if due != [] {
      ReminderEmailsSpec(due[1..], users);
      assert forall t :: t in due ==> t == due[0] || t in due[1..];
    }
  }

  /** The mail for two runs of tasks is the mail for the first, then for the second. */
  lemma {:induction false} ReminderEmailsAppend(a: seq<Task>, b: seq<Task>, users: map<UserId, User>)
    ensures ReminderEmails(a + b, users) == ReminderEmails(a, users) + ReminderEmails(b, users)
  {
    if a == [] {
      assert a + b == b;
    } else {
      assert (a + b)[0] == a[0] && (a + b)[1..] == a[1..] + b;
      ReminderEmailsAppend(a[1..], b, users);
    }
  }

  /** Extending the run by one task adds that task's reminder, if it has one. */
  lemma ReminderEmailsSnoc(a: seq<Task>, t: Task, users: map<UserId, User>)
    ensures ReminderEmails(a + [t], users) ==
      ReminderEmails(a, users) + (if HasEmail(users, t) then [ReminderFor(t, users)] else [])
  {
    ReminderEmailsAppend(a, [t], users);
    assert [t][1..] == [];
  }

  /** Send the reminders for `due`, one task at a time, appending each mail to the outbox. */
  method MailReminders(db: Store, due: seq<Task>, users: map<UserId, User>)
    requires forall t :: t in due ==> t.assignedTo in users
    modifies db`outbox
    ensures db.outbox == old(db.outbox) + ReminderEmails(due, users)
  {
    ghost var sent: seq<Email> := [];
    var i := 0;
    while i < |due|
      invariant 0 <= i <= |due|
      invariant sent == ReminderEmails(due[..i], users)
      invariant db.outbox == old(db.outbox) + sent
    {
      var task := due[i];
      var recipient := users[task.assignedTo];
      ReminderEmailsSnoc(due[..i], task, users);
      PrefixExtend(due, i);
      if recipient.email != "" {
        var mail := Email([recipient.email], DeadlineReminder(task.id));
        sent := sent + [mail];
        db.outbox := db.outbox + [mail];
      }
      i := i + 1;
    }
    assert due[..i] == due;
  }

  /**
   * The reminder job shared by remind_deadlines (k = 2) and the remind_deadlines
   * management command (k = 3): select the tasks due on day today + k, send one
   * reminder per selected task whose assignee has an address, and report how many
   * tasks were selected.  No table but the outbox changes.
   */
  method SendReminders(db: Store, today: int, k: int) returns (selected: nat)
    requires db.Valid()
    modifies db
    ensures db.Valid()
    ensures selected == |DueOn(old(db.tasks), today + k)|
    ensures db.State() == old(db.State()).(
      outbox := old(db.outbox) + ReminderEmails(DueOn(old(db.tasks), today + k), old(db.users)))
  {
    var due := DueOn(db.tasks, today + k);
    assert forall t :: t in due ==> t.assignedTo in db.users by {
      assert TasksValid(db.State());
    }
    LogTablesValid(db.State(), db.activities, db.outbox + ReminderEmails(due, db.users));
    MailReminders(db, due, db.users);
    selected := |due|;
  }

  /** remind_deadlines: the reminders for deadlines two days from today; the count is only printed. */
  method RemindDeadlines(db: Store, today: int)
    requires db.Valid()
    modifies db
    ensures db.Valid()
    ensures db.State() == old(db.State()).(
      outbox := old(db.outbox) + ReminderEmails(DueOn(old(db.tasks), today + 2), old(db.users)))
  {
    var _ := SendReminders(db, today, 2);
  }
}
