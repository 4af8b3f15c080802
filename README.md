# TickTask backend core in Dafny

This project models the rules inside the TickTask Django backend and proves properties of them. It covers:

- the task store and how a task's status is derived when it is saved;
- the task view set, the task serializer and the activity log;
- the statistics view with its overdue sweep;
- comment notifications and the two deadline-reminder jobs;
- the chat: getting or creating a conversation, gating by participant, last-seen markers, unread counts, sending messages, and choosing the "other user".

The database is a class, `Db.Store`. Each table is a field: users, profiles, tasks, comments, activities, the outbox of sent mail, conversations, messages and seen markers. `Store.Valid()` is the referential-integrity invariant every handler keeps:

- unique ids;
- every foreign key points at an existing row, including the user and source user of each activity;
- every stored task's status is consistent with its fields;
- one profile per user.

Each request handler is a method that takes the store and ends in one of these results:

| result | HTTP status |
|---|---|
| `Ok` | 200 |
| `Created` | 201 |
| `BadRequest` | 400 |
| `Forbidden` | 403 |
| `NotFound` | 404 |
| `ServerError` | 500, an uncaught exception |

Each handler's contract states the whole new state of the store, `db.State()`, in terms of the old one. Each error path states that nothing changed.

Pure decisions are functions, each with lemmas stating what the source promises about it. These include:

- status derivation;
- the change diff;
- the role-scoped queries;
- the counts;
- the recipient rules.

Modules follow the source files:

| module | models |
|---|---|
| `ApiModels` | api/models.py |
| `ApiSerializers` | api/serializers.py |
| `ApiViews` | api/views.py |
| `ApiUtils` | api/utils.py |
| `RemindCommand` | api/management/commands/remind_deadlines.py |
| `ApiSignals` | api/signals.py |
| `ChatModels` | chat/models.py |
| `ChatSerializers` | chat/serializers.py |
| `ChatViews` | chat/views.py |

Three supporting modules have no source counterpart:

- `Base`: `Option`, `Response`, a queryset-like `Filter`, `FirstIndex`, `Join` and `SetMin`.
- `Sorting`: an insertion sort over a total preorder, standing for `order_by`.
- `Db`: the store and its validity lemmas.

Time is an integer number of seconds; `ApiModels.DayOf` gives the calendar day of an instant. The current time `now` and the current day `today` are parameters, and a sent e-mail is an outbox entry: a recipient list and what the mail is about.

Some behaviours of the code are easy to miss, and the model follows the code in each:

- The activity written for a status change reports the submitted status label (api/serializers.py:75-90), even though `Task.save` then re-derives the stored status; the two can differ.
- The status validator accepts "all" as well (api/serializers.py:25-31, 63-67). The status field's choice check runs first, however, so "all" never reaches the validator. `ApiSerializers.CheckStatusField` models both checks in order.
- `TaskSerializer.update` lets any requester change the assignee. Only `create` forces a non-staff requester's task onto themselves.

## Model

| member | source | states |
|---|---|---|
| ApiModels.DeriveStatus | api/models.py:44-56 | completed exactly when the task is completed, whatever its deadline; overdue exactly when uncompleted and the deadline is before now; upcoming exactly when uncompleted and now is at or before the deadline; in progress exactly when uncompleted with no deadline |
| ApiModels.SaveProperties | api/models.py:44-56 | saving discards any previous or supplied status, leaves every other field as it was, establishes the status invariant, and saving twice at the same instant is the same as saving once |
| ApiModels.ParsePriority | api/models.py:15-19 | accepts exactly Wysoki, Średni and Niski, and the accepted value is the stored name of the priority it yields |
| ApiModels.PriorityRoundTrip | api/models.py:15-19 | parsing the stored name of a priority gives that priority back |
| ApiModels.StatusCodeInjective | api/models.py:21-26 | the four statuses are stored as four distinct, non-empty values |
| ApiModels.ParseStatus | api/models.py:21-26 | accepts exactly the four stored status values and returns the status stored under that value |
| Db.Store.SaveTask | api/models.py:44-56 | the row written is the given task with its status re-derived; it replaces the row with the same id or is appended as the next id; nothing else changes and the store stays valid |
| Db.Store.DeleteTask | api/views.py:141-143 | removes the task with that id and its comments, and nothing else |
| Db.InsertConversationValid | chat/models.py:4-8 | a conversation among existing users, stored under the next id, keeps the store valid |
| Db.SeenValid | chat/models.py:23-29 | writing the seen row for an existing conversation and user keeps the store valid; the row's key is the unique (conversation, user) pair |
| ApiUtils.LogActivity | api/utils.py:7-8 | appends exactly one activity with the given user, action and source user (none by default), both existing users, so the store stays valid, and changes nothing else |
| ApiUtils.DueOn | api/utils.py:13-16 | selects exactly the tasks that have a deadline whose calendar day is the given day; tasks without a deadline are never selected |
| ApiUtils.ReminderEmailsSpec | api/utils.py:20-32 | one reminder per selected task whose assignee has a non-empty address, addressed to that address alone; every reminder belongs to such a task |
| ApiUtils.MailReminders | api/utils.py:20-32 | the loop appends exactly the reminder mail of the selected tasks, in order, to the outbox |
| ApiUtils.SendReminders | api/utils.py:12-32 | for day today + k: the outbox grows by the reminders of the tasks due that day, no other table changes, and the count returned is the number of tasks selected |
| ApiUtils.RemindDeadlines | api/utils.py:12-32 | the reminder job for deadlines two days from today; only the outbox changes |
| RemindCommand.Handle | api/management/commands/remind_deadlines.py:12-32 | the reminder job for deadlines three days from today; no task changes, and the reported number is the number of tasks selected, not of mails sent |
| ApiSignals.CreateUserProfile | api/signals.py:8-11 | a profile is appended exactly when the saved user was created |
| ApiSignals.SaveUser | api/signals.py:8-11 | saving a user adds a profile only the first time; later saves add none, so every user keeps exactly one profile |
| ApiSignals.CommentRecipient | api/signals.py:23-26 | a comment by the task's creator goes to the assignee and any other comment to the creator, so the author is notified of their own comment exactly when they created the task and assigned it to themselves |
| ApiSignals.CommentNotices | api/signals.py:28-40 | at most one mail; exactly one when the recipient has a non-empty address, sent to that address alone |
| ApiSignals.NotifyComment | api/signals.py:14-40 | only a newly created comment adds mail to the outbox |
| ApiSerializers.ValidateStatus | api/serializers.py:63-67 | accepts exactly in_progress, completed, overdue, upcoming and all, unchanged, and rejects anything else as a bad request |
| ApiSerializers.CheckStatusField | api/models.py:21-38 | the choices check of the status field (STATUS_CHOICES, lines 21-26, used by the field on line 38), then validate_status (api/serializers.py:63-67): accepts exactly the four stored status values |
| ApiSerializers.LabelOf | api/serializers.py:80-81 | a known status value maps to its STATUS_LABELS label; an unknown value maps to itself |
| ApiSerializers.LabelsMatchChoices | api/serializers.py:25-31 | the label of every status is its display name in STATUS_CHOICES |
| ApiSerializers.Strip | api/serializers.py:33-48 | the serializer's text fields drop surrounding whitespace (Python's `str.isspace` characters): the result neither starts nor ends with whitespace, is empty exactly when the input is all whitespace, and only whitespace is cut off |
| ApiSerializers.StripIdempotent | api/serializers.py:33-48 | stripping a stripped string changes nothing |
| ApiSerializers.StripPadding | api/serializers.py:33-48 | whitespace around a string that neither starts nor ends with whitespace is removed again, so a padded resubmission of a title stores the same title |
| ApiSerializers.ValidateTaskInput | api/serializers.py:33-48 | title and description are stripped of surrounding whitespace; the request is accepted exactly when the stripped title is non-empty and at most 255 characters long, neither text holds a NUL character, the priority (if given) is a choice, the status (if given) passes the status checks, and the assignee (if given) exists; the stripped texts are what is carried on, and the priority defaults to Średni |
| ApiSerializers.ValidatePatch | api/serializers.py:33-48 | an update is accepted under the same field rules for the fields present, a full (non-partial) update must also carry the title, and it carries exactly the fields submitted, title and description stripped |
| ApiSerializers.AssigneeFor | api/serializers.py:55-56 | a non-staff requester is always the assignee; a staff requester keeps a submitted assignee and defaults to themselves; the result is always the requester or the submitted id |
| ApiSerializers.CreateTask | api/serializers.py:50-61 | the new task is stored under the next id, its user and creator are the requester, its assignee follows the rule above, its fields are the submitted ones and its status is derived; the only change is that one new row |
| ApiSerializers.ApplyPatch | api/serializers.py:48-77 | each submitted field (title, description, completion, deadline, priority, assignee) replaces the stored value and each absent one keeps it; the id, user, creator and creation time are never changed, the status is left for save to derive, and an empty patch changes nothing |
| ApiSerializers.StatusChangeActivities | api/serializers.py:74-90 | a status activity exists exactly when a status was supplied that differs from the stored one; it goes to the assignee, with the requester as its source user and both labels in its text |
| ApiSerializers.UnchangedStatusIsSilent | api/serializers.py:79 | submitting the stored status, or none, logs no status activity |
| ApiSerializers.UpdateTask | api/serializers.py:70-92 | the task is replaced in place by the patched row with its status re-derived, and the status activity (if any) is appended |
| ApiSerializers.RecentComments | api/serializers.py:94-103 | returns min(2, n) of the task's n comments, newest first, and every comment left out is no newer than every comment shown |
| ApiViews.TaskQuery | api/views.py:75-78 | staff see every task; anyone else sees exactly the tasks assigned to them; the result is ordered by deadline, latest first |
| ApiViews.GetObject | api/views.py:75-78 | a task is found only when it is in the requester's queryset; a task outside it is answered as not found |
| ApiViews.CreationActivities | api/views.py:84-102 | a self-assigned task logs one activity, for the creator, with no source user; otherwise two in order: the creator's "assigned" entry, then the assignee's "received" entry with the creator as source user |
| ApiViews.CreationFeeds | api/views.py:90-102 | creating a task adds exactly one entry to the creator's feed and exactly one to the assignee's |
| ApiViews.PerformCreate | api/views.py:84-102 | an invalid submission is a bad request and changes nothing; a valid one is created under the next id at the request time now, with the stripped title and description, the submitted completion, deadline and priority, the forced assignee and the derived status, and exactly the creation activities are appended |
| ApiViews.ChangedFieldsSpec | api/views.py:115-132 | a field is listed exactly when its old and new values differ, and the fields appear in the fixed order title, description, deadline, completion, priority |
| ApiViews.ChangeListSpec | api/views.py:115-132 | one fragment per changed field, in the same order, the completion fragment naming the old and new completed/uncompleted words; no fragment at all exactly when the five fields are unchanged |
| ApiViews.CollectChanges | api/views.py:115-132 | the list built by successive appends is exactly that list of fragments |
| ApiViews.ChangeActivities | api/views.py:134-138 | no change logs nothing; a change logs one entry for the actor plus a second for the assignee exactly when the assignee is not the actor, both carrying the same ", "-joined fragments |
| ApiViews.PerformUpdate | api/views.py:104-138 | a task outside the requester's queryset is not found, and an invalid patch is a bad request, both with no change; any other request succeeds, the row is replaced in place and exactly the status activity and the change activities are appended |
| ApiViews.DeleteRemovesOne | api/views.py:141-143 | deleting by id removes exactly one task when the id is present, and none otherwise |
| ApiViews.PerformDestroy | api/views.py:141-143 | a task outside the requester's queryset is not found, with no change; otherwise exactly one activity goes to the deleter and then that task alone is removed |
| ApiViews.Swept | api/views.py:230-234 | the sweep changes only statuses, and changes a task exactly when it is the requester's, uncompleted, past its deadline and not already overdue or completed; a changed task becomes overdue |
| ApiViews.SweptSettles | api/views.py:230-234 | after the sweep every uncompleted task of the requester that is past its deadline is overdue, and the status invariant still holds |
| ApiViews.SweepOverdue | api/views.py:230-234 | the in-place update loop leaves exactly the swept table |
| ApiViews.StatusCountsSum | api/views.py:236-242 | the four status counts add up to the number of tasks |
| ApiViews.PriorityCountsSum | api/views.py:244 | the three priority counts add up to the number of tasks |
| ApiViews.StatsAddUp | api/views.py:236-244 | the total is the number of the requester's tasks, and both the status counts and the priority counts add up to it |
| ApiViews.PriorityKeys | api/views.py:244 | a priority appears among the counted keys exactly when some task of the requester has it |
| ApiViews.TaskStats | api/views.py:225-253 | the store changes by the sweep alone, and the statistics are those of the swept tasks |
| ApiViews.ActivityQuery | api/views.py:260-265 | staff passing all=true get every activity not their own; everyone else gets exactly their own; newest first |
| ApiViews.AddComment | api/views.py:209-219 | the content is stripped; an empty or all-whitespace comment, or one holding a NUL character, is a bad request; a comment on a missing task is a server error; both leave the store unchanged. Otherwise the comment is stored, the notification mail is sent and one activity goes to the author |
| ChatSerializers.OtherUser | chat/serializers.py:37-42 | none for a group; otherwise the participant other than the requester with the lowest id, or none exactly when there is no other participant |
| ChatSerializers.PairOtherUser | chat/serializers.py:40-42 | in a two-person private chat that includes the requester, the other user is exactly the other participant |
| ChatViews.ResolveParticipants | chat/views.py:59-62 | the resolved set always contains the requester, holds exactly the submitted ids and the requester, and has no duplicates |
| ChatViews.PrivateIndex | chat/views.py:85-89 | the first non-group conversation whose participant set equals the wanted set, or none exactly when there is no such conversation |
| ChatViews.FindPrivate | chat/views.py:85-89 | the search loop finds exactly that conversation |
| ChatViews.PrivateCreatedFound | chat/views.py:85-95 | once a private conversation has been created for a set, later searches for that set find it |
| ChatViews.GetOrCreateConversation | chat/views.py:51-95 | a missing or empty list is a bad request and an unknown user id is not found, both creating nothing; a group request always creates a new conversation of exactly the resolved set; a private request needs exactly two people, returns the existing one-to-one conversation if there is one, else creates it, and afterwards the search finds the conversation returned |
| ChatViews.MessageList | chat/views.py:15-22 | a missing conversation is a server error; a non-participant gets an empty list; a participant gets exactly that conversation's messages, oldest first |
| ChatViews.UpdateLastSeen | chat/views.py:103-119 | a missing conversation is not found and a non-participant is refused, both with no change; otherwise the one (conversation, user) seen row is set to now and nothing else changes |
| ChatViews.Unread | chat/views.py:135-137 | the unread count never exceeds the number of the conversation's messages |
| ChatViews.SeenClearsUnread | chat/views.py:109-115 | once a conversation is marked seen at now, nothing sent up to now is unread |
| ChatViews.SendRaisesUnread | chat/views.py:135-137 | a new message raises a participant's unread count by one exactly when someone else sent it after their last-seen time; one's own messages are never unread |
| ChatViews.UnreadMessageCount | chat/views.py:124-141 | a missing conversation is not found and a non-participant is refused; otherwise a missing seen row is created empty, and the count is the conversation's messages from others after the last-seen time, or after the conversation was created if there is none |
| ChatViews.SendMessage | chat/views.py:158-179 | an empty text is a bad request, a missing conversation is not found and a non-participant is refused, each with no change; otherwise exactly one message, from the requester and stamped now, is appended |

## Left out

- HTTP and Django REST framework plumbing is not modelled: routers, permission classes, pagination, serializer output fields and response bodies. Every handler returns a `Response` value, and the requester is the authenticated user's id.
- Mail delivery (`send_mail`) and mail wording are not modelled. A sent mail is an outbox entry with its recipient list and what it is about.
- Timezones are not modelled. Instants are integer seconds, and the day of a deadline is its UTC day (`ApiModels.DayOf`).
- NULL placement in the deadline ordering depends on the database. `ApiViews.LaterDeadline` lists tasks without a deadline last.
- Rows with equal sort keys may come back in any order. The model only states that the result is ordered, not which order ties take.
- The private-conversation search scans the table in id order; the database gives no order for that query.
- The reminder jobs (`ApiUtils.MailReminders`, `ApiUtils.SendReminders`) send mail in task-table order. The query for due tasks has no `order_by`, so the database decides the order of the outbox entries.
- Converting submitted participant strings with `int` is not modelled: participants arrive as integers, and a negative id is an unknown user. A string that fails to convert is not modelled.
- Request fields arrive already typed. The model follows the default behaviour of the REST framework's CharField for text: surrounding whitespace is trimmed, then the blank, max_length and NUL-character checks run. The conversion of values of the wrong type is not modelled.
- `is_group` is taken as a boolean. `group_name` is the submitted string, or "" when absent.
- `ChatViews.SendMessage` returns the stored message, where the view answers with a fixed status text.
- The shadowed first `TaskViewSet` (api/views.py:15-37) is not modelled, because the later definition replaces it.
- These views have no rule worth proving and are not modelled: notes, schedules, the dashboard and summary counts, the user list, the "me" and current-user views, user creation and conversation listing.
- `ChatMessageListCreateView.perform_create` is not modelled; the core's message creation is `SendMessageView.post`.
- The `print` calls are not modelled.
- `UserProfile` is not defined in api/models.py: a profile is just the user id it belongs to.
- Attachments and `created_by` on conversations are not modelled, because chat/models.py does not define them.
- Deleting users (with its cascades and SET_NULL effects), concurrency and races between requests are not modelled.
