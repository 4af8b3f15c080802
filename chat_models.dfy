/** The chat schema (chat/models.py). */
module ChatModels {
  import opened Base
  import opened ApiModels

  type ConversationId = nat

  /** A conversation; its many-to-many participants are a set of user ids. */
  datatype Conversation = Conversation(
    id: ConversationId,
    participants: set<UserId>,
    createdAt: int,
    isGroup: bool,
    groupName: Option<string>)

  datatype ChatMessage = ChatMessage(conversation: ConversationId, sender: UserId, text: string, timestamp: int)

  /**
   * The key of a ConversationSeen row; the store keeps these rows in a map on this key,
   * which is the `unique_together = ('conversation', 'user')` constraint.
   */
  datatype SeenKey = SeenKey(conversation: ConversationId, user: UserId)

  /** Whether `u` is one of the conversation's participants (`user in conversation.participants.all()`). */
  predicate IsParticipant(c: Conversation, u: UserId)
  {
    u in c.participants
  }
}
