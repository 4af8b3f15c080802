/** chat/views.py: conversations, their messages, and what each participant has seen. */
module ChatViews {
  import opened Base
  import opened Sorting
  import opened ApiModels
  import opened ChatModels
  import opened Db

  /** `Conversation.objects.get(id=id)`: the conversation with this id, if there is one. */
  function FindConversation(cs: seq<Conversation>, id: ConversationId): (r: Option<Conversation>)
    ensures r.Some? ==> r.value in cs && r.value.id == id
    ensures r.None? <==> id !in ConversationIds(cs)
  {
    match ConversationIndex(cs, id)
    case None => None
    case Some(i) => Some(cs[i])
  }

  // ---------------------------------------------------------------------------
  // ChatMessageListCreateView.get_queryset

  /** `order_by('timestamp')`: a may be listed before b when it was sent no later. */
  predicate NoLater(a: ChatMessage, b: ChatMessage)
  {
    a.timestamp <= b.timestamp
  }

  lemma NoLaterIsTotalPreorder()
    ensures TotalPreorder(NoLater)
  {
  }

  /** `conversation.messages`: the messages of one conversation, in table order. */
  function MessagesOf(messages: seq<ChatMessage>, id: ConversationId): (r: seq<ChatMessage>)
    ensures forall m :: m in r <==> m in messages && m.conversation == id
    ensures multiset(r) <= multiset(messages)
  {
    Filter(messages, (m: ChatMessage) => m.conversation == id)
  }

  /**
   * The message list of a conversation: a conversation that does not exist raises
   * (a server error); a requester who is not a participant gets an empty list; a
   * participant gets exactly that conversation's messages, oldest first.
   */
  function MessageList(cs: seq<Conversation>, messages: seq<ChatMessage>, requester: UserId, id: ConversationId)
    : (r: Response<seq<ChatMessage>>)
    ensures FindConversation(cs, id).None? <==> r == ServerError
    ensures FindConversation(cs, id).Some? && !IsParticipant(FindConversation(cs, id).value, requester) ==> r == Ok([])
    ensures FindConversation(cs, id).Some? && IsParticipant(FindConversation(cs, id).value, requester) ==>
      && r.Ok?
      && multiset(r.value) == multiset(MessagesOf(messages, id))
      && (forall m :: m in r.value <==> m in messages && m.conversation == id)
      && Ordered(r.value, NoLater)
  {
    match FindConversation(cs, id)
    case None => ServerError
    case Some(c) =>
      if !IsParticipant(c, requester) then Ok([])
      else
        NoLaterIsTotalPreorder();
        var own := MessagesOf(messages, id);
        var sorted := Sort(own, NoLater);
        assert forall m :: m in sorted <==> m in multiset(sorted);
        assert forall m :: m in own <==> m in multiset(own);
        Ok(sorted)
  }

  // ---------------------------------------------------------------------------
  // GetOrCreateConversationView.post

  /** A non-empty participant list was submitted (`if not participants` rejects a missing or empty one). */
  predicate Submitted(participants: Option<seq<int>>)
  {
    participants.Some? && participants.value != []
  }

  /** The submitted ids with the requester's id appended, duplicates removed. */
  function ResolveParticipants(ids: seq<int>, requester: UserId): (r: set<int>)
    ensures requester in r
    ensures forall x :: x in r <==> x in ids || x == requester
    ensures |r| <= |ids| + 1
  {
    var all := ids + [requester];
    assert forall x :: x in all <==> x in ids || x == requester;
    var r := set x | x in all;
    SetOfSeqSize(all);
    r
  }

  /** A set holds no more elements than the sequence it was made from. */
  lemma {:induction false} SetOfSeqSize(s: seq<int>)
    ensures |set x | x in s| <= |s|
  {
    if s != [] {
      SetOfSeqSize(s[1..]);
      assert (set x | x in s) == (set x | x in s[1..]) + {s[0]};
    }
  }

  /**
   * Every id belongs to an existing user: `User.objects.filter(id__in=ids)` finds as
   * many rows as there are ids exactly when each id is a user's.
   */
  predicate AllKnown(users: map<UserId, User>, ids: set<int>)
  {
    forall x :: x in ids ==> x >= 0 && x as nat in users
  }

  /** The requester and the submitted ids, as user ids, once all of them are known. */
  function Members(users: map<UserId, User>, participants: Option<seq<int>>, requester: UserId): (r: set<UserId>)
    requires Submitted(participants)
    requires AllKnown(users, ResolveParticipants(participants.value, requester))
    ensures forall u: UserId :: u in r <==> u in participants.value || u == requester
    ensures r <= users.Keys
  {
    set x | x in ResolveParticipants(participants.value, requester) && x >= 0 :: x as nat
  }

  /** A one-to-one conversation whose participants are exactly `want`. */
  predicate PrivateWith(c: Conversation, want: set<UserId>)
  {
    !c.isGroup && c.participants == want
  }

  /** The first one-to-one conversation, in table order, among exactly these participants. */
  function PrivateIndex(cs: seq<Conversation>, want: set<UserId>): (r: Option<nat>)
    ensures r.Some? ==> r.value < |cs| && PrivateWith(cs[r.value], want)
    ensures r.Some? ==> forall j :: 0 <= j < r.value ==> !PrivateWith(cs[j], want)
    ensures r.None? <==> forall j :: 0 <= j < |cs| ==> !PrivateWith(cs[j], want)
  {
    FirstIndex(cs, (c: Conversation) => PrivateWith(c, want))
  }

  /** The search loop over `Conversation.objects.filter(is_group=False)`. */
  method FindPrivate(cs: seq<Conversation>, want: set<UserId>) returns (idx: Option<nat>)
    ensures idx == PrivateIndex(cs, want)
  {
    var i := 0;
    while i < |cs|
      invariant 0 <= i <= |cs|
      invariant forall j :: 0 <= j < i ==> !PrivateWith(cs[j], want)
    {
      var convo := cs[i];
      if !convo.isGroup && convo.participants == want {
        return Some(i);
      }
      i := i + 1;
    }
    return None;
  }

  /** A conversation added after the table held none like it is the one later searches find. */
  lemma PrivateCreatedFound(cs: seq<Conversation>, c: Conversation, want: set<UserId>)
    requires PrivateIndex(cs, want).None? && PrivateWith(c, want)
    ensures PrivateIndex(cs + [c], want) == Some(|cs|)
  {
    assert forall j :: 0 <= j < |cs| ==> (cs + [c])[j] == cs[j];
    assert (cs + [c])[|cs|] == c;
  }

  /** Store a new conversation under the next id. */
  method AddConversation(db: Store, c: Conversation)
    requires db.Valid()
    requires c.id == db.nextConversationId && c.participants <= db.users.Keys
    modifies db
    ensures db.Valid()
    ensures db.State() == old(db.State()).(
      conversations := old(db.conversations) + [c], nextConversationId := old(db.nextConversationId) + 1)
  {
    InsertConversationValid(db.State(), c);
    db.conversations := db.conversations + [c];
    db.nextConversationId := db.nextConversationId + 1;
  }

  /**
   * GetOrCreateConversationView.post.  No participants: bad request.  An id that is
   * no user's: not found.  A group: always a new conversation of the requester and
   * the submitted users.  A private chat: exactly two people are required, and the
   * first existing one-to-one conversation among them is returned, or else a new one
   * is created, so that asking again returns the same conversation.
   */
  method GetOrCreateConversation(db: Store, requester: UserId, participants: Option<seq<int>>,
                                 isGroup: bool, groupName: string, now: int)
    returns (r: Response<Conversation>)
    requires db.Valid()
    modifies db
    ensures db.Valid()
    ensures !Submitted(participants) ==> r == BadRequest && db.State() == old(db.State())
    ensures Submitted(participants) && !AllKnown(old(db.users), ResolveParticipants(participants.value, requester)) ==>
      r == NotFound && db.State() == old(db.State())
    ensures Submitted(participants) && AllKnown(old(db.users), ResolveParticipants(participants.value, requester)) ==>
      var want := Members(old(db.users), participants, requester);
      && (isGroup ==>
            && r == Created(Conversation(old(db.nextConversationId), want, now, true, Some(groupName)))
            && db.State() == old(db.State()).(conversations := old(db.conversations) + [r.value],
                                              nextConversationId := old(db.nextConversationId) + 1))
      && (!isGroup && |want| != 2 ==> r == BadRequest && db.State() == old(db.State()))
      && (!isGroup && |want| == 2 && PrivateIndex(old(db.conversations), want).Some? ==>
            && r == Ok(old(db.conversations)[PrivateIndex(old(db.conversations), want).value])
            && db.State() == old(db.State()))
      && (!isGroup && |want| == 2 && PrivateIndex(old(db.conversations), want).None? ==>
            && r == Created(Conversation(old(db.nextConversationId), want, now, false, None))
            && db.State() == old(db.State()).(conversations := old(db.conversations) + [r.value],
                                              nextConversationId := old(db.nextConversationId) + 1))
      && (!isGroup && (r.Ok? || r.Created?) ==>
            && requester in r.value.participants && |r.value.participants| == 2
            && PrivateIndex(db.conversations, want).Some?
            && db.conversations[PrivateIndex(db.conversations, want).value] == r.value)
  {
    if !Submitted(participants) {
      return BadRequest;
    }
    var ids := participants.value + [requester];
    var unique := set x | x in ids;
    assert unique == ResolveParticipants(participants.value, requester);
    if !AllKnown(db.users, unique) {
      return NotFound;
    }
    var users := set x | x in unique && x >= 0 :: x as nat;
    assert users == Members(db.users, participants, requester);
    if isGroup {
      var convo := Conversation(db.nextConversationId, users, now, true, Some(groupName));
      AddConversation(db, convo);
      return Created(convo);
    }
    if |users| != 2 {
      return BadRequest;
    }
    var found := FindPrivate(db.conversations, users);
    if found.Some? {
      return Ok(db.conversations[found.value]);
    }
    var convo := Conversation(db.nextConversationId, users, now, false, None);
    PrivateCreatedFound(db.conversations, convo, users);
    AddConversation(db, convo);
    return Created(convo);
  }

  // ---------------------------------------------------------------------------
  // UpdateLastSeenView.post and UnreadMessageCountView.get

  /** The last-seen time recorded for this key; a missing row and a null time both read as none. */
  function LastSeen(seen: map<SeenKey, Option<int>>, k: SeenKey): Option<int>
  {
    if k in seen then seen[k] else None
  }

  /** The time from which messages count as unread: the last-seen time, or else the conversation's creation. */
  function Since(c: Conversation, lastSeen: Option<int>): int
  {
    if lastSeen.Some? then lastSeen.value else c.createdAt
  }

  /** A message of conversation `c`, sent after `since` by someone other than `u`. */
  predicate UnreadBy(c: Conversation, u: UserId, since: int, m: ChatMessage)
  {
    m.conversation == c.id && m.timestamp > since && m.sender != u
  }

  /** The number the unread counter reports for `u` in conversation `c`. */
  function Unread(messages: seq<ChatMessage>, c: Conversation, u: UserId, lastSeen: Option<int>): (r: nat)
    ensures r <= |MessagesOf(messages, c.id)|
  {
    var since := Since(c, lastSeen);
    SubFilterSize(messages, (m: ChatMessage) => UnreadBy(c, u, since, m), (m: ChatMessage) => m.conversation == c.id);
    |Filter(messages, (m: ChatMessage) => UnreadBy(c, u, since, m))|
  }

  /**
   * Once a participant has marked a conversation seen at `now`, nothing sent up to
   * `now` counts as unread for them.
   */
  lemma {:induction false} SeenClearsUnread(messages: seq<ChatMessage>, c: Conversation, u: UserId, now: int)
    requires forall m :: m in messages ==> m.timestamp <= now
    ensures Unread(messages, c, u, Some(now)) == 0
  {
    FilterNone(messages, (m: ChatMessage) => UnreadBy(c, u, now, m));
  }

  /**
   * A new message raises the unread count of a participant by one when someone else
   * sent it to that conversation after their last-seen time, and leaves it alone
   * otherwise; in particular one's own messages are never unread.
   */
  lemma SendRaisesUnread(messages: seq<ChatMessage>, m: ChatMessage, c: Conversation, u: UserId, lastSeen: Option<int>)
    ensures Unread(messages + [m], c, u, lastSeen) ==
      Unread(messages, c, u, lastSeen) + (if UnreadBy(c, u, Since(c, lastSeen), m) then 1 else 0)
    ensures m.sender == u ==> Unread(messages + [m], c, u, lastSeen) == Unread(messages, c, u, lastSeen)
  {
    var p := (x: ChatMessage) => UnreadBy(c, u, Since(c, lastSeen), x);
    FilterAppend(messages, [m], p);
    FilterSmall(m, m, p);
  }

  /**
   * UpdateLastSeenView.post: a missing conversation is not found, a non-participant
   * is refused, and for a participant the one seen row of (conversation, requester)
   * is created if need be and set to now.
   */
  method UpdateLastSeen(db: Store, requester: UserId, id: ConversationId, now: int) returns (r: Response<()>)
    requires db.Valid()
    modifies db
    ensures db.Valid()
    ensures FindConversation(old(db.conversations), id).None? ==> r == NotFound && db.State() == old(db.State())
    ensures FindConversation(old(db.conversations), id).Some? ==>
      var c := FindConversation(old(db.conversations), id).value;
      && (!IsParticipant(c, requester) ==> r == Forbidden && db.State() == old(db.State()))
      && (IsParticipant(c, requester) ==>
            && r == Ok(())
            && db.State() == old(db.State()).(seen := old(db.seen)[SeenKey(id, requester) := Some(now)]))
  {
    var found := FindConversation(db.conversations, id);
    if found.None? {
      return NotFound;
    }
    var c := found.value;
    if requester !in c.participants {
      return Forbidden;
    }
    assert requester in db.users by {
      assert ChatValid(db.State());
    }
    SeenValid(db.State(), SeenKey(id, requester), Some(now));
    db.seen := db.seen[SeenKey(id, requester) := Some(now)];
    return Ok(());
  }

  /** `ConversationSeen.objects.get_or_create`: a missing seen row is created with no time. */
  method EnsureSeenRow(db: Store, k: SeenKey)
    requires db.Valid()
    requires k.conversation in ConversationIds(db.conversations) && k.user in db.users
    modifies db
    ensures db.Valid()
    ensures db.State() == old(db.State()).(seen := if k in old(db.seen) then old(db.seen) else old(db.seen)[k := None])
    ensures db.seen[k] == LastSeen(old(db.seen), k)
  {
    if k !in db.seen {
      SeenValid(db.State(), k, None);
      db.seen := db.seen[k := None];
    }
  }

  /**
   * UnreadMessageCountView.get: the same refusals as above; for a participant the
   * seen row is created with no time if it is missing, and the count is that of the
   * conversation's messages sent by others after the last-seen time, or after the
   * conversation's creation when there is none.
   */
  method UnreadMessageCount(db: Store, requester: UserId, id: ConversationId) returns (r: Response<nat>)
    requires db.Valid()
    modifies db
    ensures db.Valid()
    ensures FindConversation(old(db.conversations), id).None? ==> r == NotFound && db.State() == old(db.State())
    ensures FindConversation(old(db.conversations), id).Some? ==>
      var c := FindConversation(old(db.conversations), id).value;
      var k := SeenKey(id, requester);
      && (!IsParticipant(c, requester) ==> r == Forbidden && db.State() == old(db.State()))
      && (IsParticipant(c, requester) ==>
            && r == Ok(Unread(old(db.messages), c, requester, LastSeen(old(db.seen), k)))
            && db.State() == old(db.State()).(seen := if k in old(db.seen) then old(db.seen) else old(db.seen)[k := None]))
  {
    var found := FindConversation(db.conversations, id);
    if found.None? {
      return NotFound;
    }
    var c := found.value;
    if requester !in c.participants {
      return Forbidden;
    }
    var k := SeenKey(id, requester);
    ghost var lastSeen := LastSeen(db.seen, k);
    assert requester in db.users by {
      assert ChatValid(db.State());
    }
    EnsureSeenRow(db, k);
    var since := if db.seen[k].Some? then db.seen[k].value else c.createdAt;
    assert since == Since(c, lastSeen);
    var unread := Filter(db.messages, (m: ChatMessage) => UnreadBy(c, requester, since, m));
    return Ok(|unread|);
  }

  // ---------------------------------------------------------------------------
  // SendMessageView.post

  /**
   * SendMessageView.post: a missing or empty text is a bad request (checked first),
   * then a missing conversation is not found and a non-participant is refused; a
   * participant's message is appended, stamped now.
   */
  method SendMessage(db: Store, requester: UserId, id: ConversationId, text: Option<string>, now: int)
    returns (r: Response<ChatMessage>)
    requires db.Valid()
    modifies db
    ensures db.Valid()
    ensures (text.None? || text.value == "") ==> r == BadRequest && db.State() == old(db.State())
    ensures text.Some? && text.value != "" && FindConversation(old(db.conversations), id).None? ==>
      r == NotFound && db.State() == old(db.State())
    ensures text.Some? && text.value != "" && FindConversation(old(db.conversations), id).Some? ==>
      var c := FindConversation(old(db.conversations), id).value;
      && (!IsParticipant(c, requester) ==> r == Forbidden && db.State() == old(db.State()))
      && (IsParticipant(c, requester) ==>
            && r == Created(ChatMessage(id, requester, text.value, now))
            && db.State() == old(db.State()).(messages := old(db.messages) + [r.value]))
  {
    if text.None? || text.value == "" {
      return BadRequest;
    }
    var found := FindConversation(db.conversations, id);
    if found.None? {
      return NotFound;
    }
    var c := found.value;
    if requester !in c.participants {
      return Forbidden;
    }
    var message := ChatMessage(id, requester, text.value, now);
    assert requester in db.users by {
      assert ChatValid(db.State());
    }
    InsertMessageValid(db.State(), message);
    db.messages := db.messages + [message];
    return Created(message);
  }
}
