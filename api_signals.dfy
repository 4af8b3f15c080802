/** api/signals.py: the post_save receivers for users and comments. */
module ApiSignals {
  import opened ApiModels
  import opened Db

  /** create_user_profile: a profile row is added when, and only when, the saved user was just created. */
  method CreateUserProfile(db: Store, user: UserId, created: bool)
    modifies db`profiles
    ensures db.profiles == if created then old(db.profiles) + [user] else old(db.profiles)
  {
    if created {
      db.profiles := db.profiles + [user];
    }
  }

  /**
   * User.save followed by its post_save receiver: the row is inserted or replaced,
   * and it counts as created exactly when no user with that id existed before.
   * Every user therefore keeps exactly one profile, however often it is saved.
   */
  method SaveUser(db: Store, u: User)
    requires db.Valid()
    modifies db
    ensures db.Valid()
    ensures db.State() == old(db.State()).(
      users := old(db.users)[u.id := u],
      profiles := if u.id in old(db.users) then old(db.profiles) else old(db.profiles) + [u.id])
  {
    var created := u.id !in db.users;
    SaveUserValid(db.State(), u);
    db.users := db.users[u.id := u];
    CreateUserProfile(db, u.id, created);
  }

  lemma SaveUserValid(s: Tables, u: User)
    requires TablesValid(s)
    ensures TablesValid(s.(users := s.users[u.id := u],
                           profiles := if u.id in s.users then s.profiles else s.profiles + [u.id]))
  {
    var s' := s.(users := s.users[u.id := u],
                 profiles := if u.id in s.users then s.profiles else s.profiles + [u.id]);
    if u.id !in s.users {
      assert u.id !in s.profiles;
      assert multiset(s'.profiles) == multiset(s.profiles) + multiset{u.id};
    }
    assert UsersValid(s');
    assert s.users.Keys <= s'.users.Keys;
    assert TasksValid(s');
    assert ChatValid(s');
  }

  /**
   * notify_comment's choice of whom to tell: a comment by the task's creator goes to
   * its assignee, any other comment to its creator.  So the author is told of their
   * own comment only when they created the task and assigned it to themselves.
   */
  function CommentRecipient(task: Task, author: UserId): (r: UserId)
    ensures author == task.createdBy ==> r == task.assignedTo
    ensures author != task.createdBy ==> r == task.createdBy
    ensures r == author <==> author == task.createdBy && task.assignedTo == task.createdBy
  {
    if author == task.createdBy then task.assignedTo else task.createdBy
  }

  /** The mail a new comment causes: one message to the recipient's address alone, if they have one. */
  function CommentNotices(task: Task, author: UserId, users: map<UserId, User>): (r: seq<Email>)
    requires CommentRecipient(task, author) in users
    ensures |r| <= 1
    ensures r != [] <==> users[CommentRecipient(task, author)].email != ""
    ensures r != [] ==> r[0] == Email([users[CommentRecipient(task, author)].email], CommentNotice(task.id))
  {
    var recipient := users[CommentRecipient(task, author)];
    if recipient.email != "" then [Email([recipient.email], CommentNotice(task.id))] else []
  }

  /** notify_comment: only a newly created comment sends mail. */
  method NotifyComment(db: Store, task: Task, author: UserId, created: bool)
    requires task.createdBy in db.users && task.assignedTo in db.users
    modifies db`outbox
    ensures db.outbox == old(db.outbox) + (if created then CommentNotices(task, author, db.users) else [])
  {
    if created {
      var recipient := CommentRecipient(task, author);
      var user := db.users[recipient];
      if user.email != "" {
        db.outbox := db.outbox + [Email([user.email], CommentNotice(task.id))];
      }
    }
  }
}
