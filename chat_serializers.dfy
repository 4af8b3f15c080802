/** chat/serializers.py: which participant a conversation is shown as "with". */
module ChatSerializers {
  import opened Base
  import opened ApiModels
  import opened ChatModels

  /**
   * ConversationSerializer.get_other_user: none for a group; otherwise the
   * participant other than the requester with the smallest id (`.first()` on an
   * unordered queryset orders by primary key), or none if there is no other.
   */
  function OtherUser(c: Conversation, requester: UserId): (r: Option<UserId>)
    ensures c.isGroup ==> r == None
    ensures r.Some? ==> r.value in c.participants && r.value != requester
    ensures r.Some? ==> forall p :: p in c.participants && p != requester ==> r.value <= p
    ensures !c.isGroup ==> (r.None? <==> c.participants <= {requester})
  {
    if c.isGroup then None
    else
      var others := c.participants - {requester};
      assert forall p :: p in c.participants ==> p in others || p == requester;
      if others == {} then None
      else
        assert exists y :: y in others;
        var m := SetMin(others);
        Some(m)
  }

  /**
   * In a private conversation of exactly two people, one of them the requester,
   * the other user is exactly the other participant.
   */
  lemma PairOtherUser(c: Conversation, requester: UserId)
    requires !c.isGroup && |c.participants| == 2 && requester in c.participants
    ensures OtherUser(c, requester).Some?
    ensures c.participants == {requester, OtherUser(c, requester).value}
  {
    var others := c.participants - {requester};
    assert |others| == 1;
    var x :| x in others;
    assert |others - {x}| == 0;
    assert others == {x};
    assert c.participants == {requester} + others;
  }
}
