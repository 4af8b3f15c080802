/** api/management/commands/remind_deadlines.py: the reminder job as a management command. */
module RemindCommand {
  import opened Db
  import opened ApiUtils

  /** How many days ahead the command looks. */
  const DaysAhead := 3

  /**
   * Command.handle: remind the assignees of the tasks due three days from today.
   * The number it reports is the number of tasks selected, whether or not any
   * mail could be sent for them.
   */
  method Handle(db: Store, today: int) returns (reported: nat)
    requires db.Valid()
    modifies db
    ensures db.Valid()
    ensures reported == |DueOn(old(db.tasks), today + DaysAhead)|
    ensures db.State() == old(db.State()).(
      outbox := old(db.outbox) + ReminderEmails(DueOn(old(db.tasks), today + DaysAhead), old(db.users)))
  {
    reported := SendReminders(db, today, DaysAhead);
  }
}
