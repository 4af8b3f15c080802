/**
 * The database: one table per model, held in a class whose fields the request
 * handlers update.  Rows that are only ever appended are sequences in insertion
 * order; the one table keyed by a unique pair (ConversationSeen) is a map.
 * Sent mail is an append-only outbox.
 */
module Db {
  import opened Base
  import opened ApiModels
  import opened ChatModels

  /** What a sent e-mail was about; its wording is not modelled. */
  datatype EmailKind = DeadlineReminder(task: TaskId) | CommentNotice(task: TaskId)

  /** One `send_mail` call: its `recipient_list` and what it was about. */
  datatype Email = Email(recipients: seq<string>, kind: EmailKind)

  /** A snapshot of every table, so that a handler's contract can say what did not change. */
  datatype Tables = Tables(
    users: map<UserId, User>,
    profiles: seq<UserId>,
    tasks: seq<Task>,
    nextTaskId: TaskId,
    comments: seq<Comment>,
    activities: seq<Activity>,
    outbox: seq<Email>,
    conversations: seq<Conversation>,
    nextConversationId: ConversationId,
    messages: seq<ChatMessage>,
    seen: map<SeenKey, Option<int>>)

  function TaskIds(tasks: seq<Task>): set<TaskId>
  {
    set t | t in tasks :: t.id
  }

  function ConversationIds(cs: seq<Conversation>): set<ConversationId>
  {
    set c | c in cs :: c.id
  }

  predicate UniqueTaskIds(tasks: seq<Task>)
  {
    forall i, j :: 0 <= i < j < |tasks| ==> tasks[i].id != tasks[j].id
  }

  predicate UniqueConversationIds(cs: seq<Conversation>)
  {
    forall i, j :: 0 <= i < j < |cs| ==> cs[i].id != cs[j].id
  }

  /** A task row whose foreign keys all point at existing users. */
  predicate TaskRefsValid(t: Task, users: map<UserId, User>)
  {
    t.user in users && t.createdBy in users && t.assignedTo in users
  }

  ghost predicate UsersValid(s: Tables)
  {
    && (forall k :: k in s.users ==> s.users[k].id == k)
    // every user has exactly one profile row
    && (forall u :: u in s.profiles ==> u in s.users)
    && (forall u :: u in s.users ==> multiset(s.profiles)[u] == 1)
  }

  ghost predicate TasksValid(s: Tables)
  {
    && UniqueTaskIds(s.tasks)
    && (forall t :: t in s.tasks ==> t.id < s.nextTaskId && TaskRefsValid(t, s.users) && StatusInvariant(t))
    && (forall c :: c in s.comments ==> c.taskId in TaskIds(s.tasks) && c.author in s.users)
  }

  ghost predicate ChatValid(s: Tables)
  {
    && UniqueConversationIds(s.conversations)
    && (forall c :: c in s.conversations ==> c.id < s.nextConversationId && c.participants <= s.users.Keys)
    && (forall m :: m in s.messages ==> m.conversation in ConversationIds(s.conversations) && m.sender in s.users)
    && (forall k :: k in s.seen ==> k.conversation in ConversationIds(s.conversations) && k.user in s.users)
  }

  /** An activity's user and its source user, if any, are existing users (`Activity.user`, `Activity.source_user`). */
  predicate ActivityRefsValid(a: Activity, users: map<UserId, User>)
  {
    a.user in users && (a.sourceUser.Some? ==> a.sourceUser.value in users)
  }

  ghost predicate ActivitiesValid(s: Tables)
  {
    forall a :: a in s.activities ==> ActivityRefsValid(a, s.users)
  }

  ghost predicate TablesValid(s: Tables)
  {
    UsersValid(s) && TasksValid(s) && ChatValid(s) && ActivitiesValid(s)
  }

  /**
   * The activity log and the outbox constrain nothing else: any log whose entries
   * point at existing users, and any outbox, keep the tables valid.
   */
  lemma LogTablesValid(s: Tables, activities: seq<Activity>, outbox: seq<Email>)
    requires TablesValid(s)
    requires forall a :: a in activities ==> ActivityRefsValid(a, s.users)
    ensures TablesValid(s.(activities := activities, outbox := outbox))
  {
    var s' := s.(activities := activities, outbox := outbox);
    assert UsersValid(s') && TasksValid(s') && ChatValid(s');
  }

  /** Storing a saved task in place of the row with its id keeps the tables valid. */
  lemma ReplaceTaskValid(s: Tables, i: nat, t: Task)
    requires TablesValid(s)
    requires i < |s.tasks| && s.tasks[i].id == t.id
    requires TaskRefsValid(t, s.users) && StatusInvariant(t)
    ensures TablesValid(s.(tasks := s.tasks[i := t]))
  {
    var s' := s.(tasks := s.tasks[i := t]);
    assert s'.tasks[i] == t && s.tasks[i] in s.tasks;
    forall x | x in s'.tasks ensures x.id in TaskIds(s.tasks) {
      var k :| 0 <= k < |s'.tasks| && s'.tasks[k] == x;
      if k != i { assert s.tasks[k] == x; }
    }
    forall x | x in s.tasks ensures x.id in TaskIds(s'.tasks) {
      var k :| 0 <= k < |s.tasks| && s.tasks[k] == x;
      if k != i { assert s'.tasks[k] == x; }
    }
    assert TaskIds(s'.tasks) == TaskIds(s.tasks);
    assert TasksValid(s');
  }

  /** Inserting a saved task under the next id keeps the tables valid. */
  lemma InsertTaskValid(s: Tables, t: Task)
    requires TablesValid(s)
    requires t.id == s.nextTaskId
    requires TaskRefsValid(t, s.users) && StatusInvariant(t)
    ensures TablesValid(s.(tasks := s.tasks + [t], nextTaskId := s.nextTaskId + 1))
  {
    var s' := s.(tasks := s.tasks + [t], nextTaskId := s.nextTaskId + 1);
    assert TaskIds(s.tasks) <= TaskIds(s'.tasks);
    assert TasksValid(s');
  }

  /** Deleting a task and its comments keeps the tables valid. */
  lemma DeleteTaskValid(s: Tables, id: TaskId)
    requires TablesValid(s)
    ensures TablesValid(s.(tasks := Filter(s.tasks, (t: Task) => t.id != id),
                           comments := Filter(s.comments, (c: Comment) => c.taskId != id)))
  {
    var s' := s.(tasks := Filter(s.tasks, (t: Task) => t.id != id),
                 comments := Filter(s.comments, (c: Comment) => c.taskId != id));
    FilterKeepsTaskIdsUnique(s.tasks, (t: Task) => t.id != id);
    forall c | c in s'.comments ensures c.taskId in TaskIds(s'.tasks) {
      assert c in s.comments;
      var t :| t in s.tasks && t.id == c.taskId;
      assert t in s'.tasks;
    }
    assert TasksValid(s');
  }

  /** Appending a comment on an existing task by an existing user keeps the tables valid. */
  lemma InsertCommentValid(s: Tables, c: Comment)
    requires TablesValid(s)
    requires c.taskId in TaskIds(s.tasks) && c.author in s.users
    ensures TablesValid(s.(comments := s.comments + [c]))
  {
    var s' := s.(comments := s.comments + [c]);
    assert TasksValid(s');
    assert UsersValid(s') && ChatValid(s');
  }

  /** Inserting a conversation among existing users under the next id keeps the tables valid. */
  lemma InsertConversationValid(s: Tables, c: Conversation)
    requires TablesValid(s)
    requires c.id == s.nextConversationId && c.participants <= s.users.Keys
    ensures TablesValid(s.(conversations := s.conversations + [c], nextConversationId := s.nextConversationId + 1))
  {
    var s' := s.(conversations := s.conversations + [c], nextConversationId := s.nextConversationId + 1);
    assert ConversationIds(s.conversations) <= ConversationIds(s'.conversations);
    assert ChatValid(s');
    assert UsersValid(s') && TasksValid(s');
  }

  /** Appending a message from an existing user to an existing conversation keeps the tables valid. */
  lemma InsertMessageValid(s: Tables, m: ChatMessage)
    requires TablesValid(s)
    requires m.conversation in ConversationIds(s.conversations) && m.sender in s.users
    ensures TablesValid(s.(messages := s.messages + [m]))
  {
    var s' := s.(messages := s.messages + [m]);
    assert ChatValid(s');
    assert UsersValid(s') && TasksValid(s');
  }

  /** Writing the seen row of an existing conversation and user keeps the tables valid. */
  lemma SeenValid(s: Tables, k: SeenKey, lastSeen: Option<int>)
    requires TablesValid(s)
    requires k.conversation in ConversationIds(s.conversations) && k.user in s.users
    ensures TablesValid(s.(seen := s.seen[k := lastSeen]))
  {
    var s' := s.(seen := s.seen[k := lastSeen]);
    assert ChatValid(s');
    assert UsersValid(s') && TasksValid(s');
  }

  /** The position of the task with id `id`, if there is one. */
  function TaskIndex(tasks: seq<Task>, id: TaskId): (r: Option<nat>)
    ensures r.Some? ==> r.value < |tasks| && tasks[r.value].id == id
    ensures r.None? <==> id !in TaskIds(tasks)
  {
    FirstIndex(tasks, (x: Task) => x.id == id)
  }

  /** The position of the conversation with id `id` (`Conversation.objects.get(id=...)`), if there is one. */
  function ConversationIndex(cs: seq<Conversation>, id: ConversationId): (r: Option<nat>)
    ensures r.Some? ==> r.value < |cs| && cs[r.value].id == id
    ensures r.None? <==> id !in ConversationIds(cs)
  {
    FirstIndex(cs, (x: Conversation) => x.id == id)
  }

  /** Keeping only some rows keeps their ids distinct. */
  lemma {:induction false} FilterKeepsTaskIdsUnique(tasks: seq<Task>, p: Task -> bool)
    requires UniqueTaskIds(tasks)
    ensures UniqueTaskIds(Filter(tasks, p))
  {
    if tasks != [] {
      var rest := Filter(tasks[1..], p);
      FilterKeepsTaskIdsUnique(tasks[1..], p);
      assert forall t :: t in rest ==> t in tasks[1..];
      forall t | t in tasks[1..] ensures t.id != tasks[0].id {
        var k :| 0 <= k < |tasks[1..]| && tasks[1..][k] == t;
        assert tasks[k + 1] == t;
      }
    }
  }

  class Store {
    var users: map<UserId, User>
    var profiles: seq<UserId>
    var tasks: seq<Task>
    var nextTaskId: TaskId
    var comments: seq<Comment>
    var activities: seq<Activity>
    var outbox: seq<Email>
    var conversations: seq<Conversation>
    var nextConversationId: ConversationId
    var messages: seq<ChatMessage>
    var seen: map<SeenKey, Option<int>>

    function State(): Tables
      reads this
    {
      Tables(users, profiles, tasks, nextTaskId, comments, activities, outbox,
             conversations, nextConversationId, messages, seen)
    }

    ghost predicate Valid()
      reads this
    {
      TablesValid(State())
    }

    /** An empty database. */
    constructor ()
      ensures Valid()
      ensures State() == Tables(map[], [], [], 0, [], [], [], [], 0, [], map[])
    {
      users, profiles := map[], [];
      tasks, nextTaskId, comments, activities, outbox := [], 0, [], [], [];
      conversations, nextConversationId, messages, seen := [], 0, [], map[];
    }

    /**
     * Task.save: overwrite the status with the derived one, then write the row,
     * replacing the row with the same id or inserting it as the next id.
     */
    method SaveTask(t: Task, now: int) returns (saved: Task)
      requires Valid()
      requires TaskRefsValid(t, users)
      requires t.id in TaskIds(tasks) || t.id == nextTaskId
      modifies this
      ensures Valid()
      ensures saved == WithDerivedStatus(t, now)
      ensures old(TaskIndex(tasks, t.id)).Some? ==>
        State() == old(State()).(tasks := old(tasks)[old(TaskIndex(tasks, t.id)).value := saved])
      ensures old(TaskIndex(tasks, t.id)).None? ==>
        State() == old(State()).(tasks := old(tasks) + [saved], nextTaskId := old(nextTaskId) + 1)
    {
      saved := t.(status := DeriveStatus(t.isCompleted, t.deadline, now));
      var i := TaskIndex(tasks, t.id);
      if i.Some? {
        ReplaceTaskValid(State(), i.value, saved);
        tasks := tasks[i.value := saved];
      } else {
        InsertTaskValid(State(), saved);
        tasks := tasks + [saved];
        nextTaskId := nextTaskId + 1;
      }
    }

    /** Model.delete on a task: the row goes, and its comments with it (`on_delete=CASCADE`). */
    method DeleteTask(id: TaskId)
      requires Valid()
      modifies this
      ensures Valid()
      ensures State() == old(State()).(
        tasks := Filter(old(tasks), (t: Task) => t.id != id),
        comments := Filter(old(comments), (c: Comment) => c.taskId != id))
    {
      DeleteTaskValid(State(), id);
      tasks := Filter(tasks, (t: Task) => t.id != id);
      comments := Filter(comments, (c: Comment) => c.taskId != id);
    }
  }
}
