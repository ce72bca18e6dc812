/**
 * The two document-creation handlers, each turning the created document and
 * the current contents of the `users` and `groups` collections into a send
 * decision: nothing to send, or one send request (tokens and payload) for the
 * messaging transport. A handler that dereferences a missing document fails.
 */
module Handlers {
  import opened Wrappers
  import opened Firestore
  import opened RecipientResolution
  import opened TokenCollection
  import opened Payloads

  /** A created `group_invitations/{invitationId}` document. */
  datatype GroupInvitation = GroupInvitation(invitedUserId: DocId, groupName: string, groupId: string)

  /** A created `groups/{groupId}/messages/{messageId}` document. */
  datatype GroupMessage = GroupMessage(senderId: DocId, text: Option<string>)

  datatype SendRequest = SendRequest(tokens: seq<string>, payload: Payload)

  datatype Decision = NoSend | Send(request: SendRequest)

  /** `.data()` of a document that does not exist, dereferenced. */
  datatype HandlerError = MissingUserDocument(userId: DocId) | MissingGroupDocument(groupId: DocId)

  type Outcome = Result<Decision, HandlerError>

  /**
   * The invitation handler: the invited user's document must exist; without a
   * truthy token nothing is sent; otherwise the invitation payload goes to that
   * single token.
   */
  function SendGroupInvitationNotification(users: Users, invitation: GroupInvitation): (r: Outcome)
    ensures r.Failure? <==> invitation.invitedUserId !in users
    ensures r.Failure? ==> r.error == MissingUserDocument(invitation.invitedUserId)
    ensures r == Success(NoSend) <==> invitation.invitedUserId in users && !HasToken(users, invitation.invitedUserId)
    ensures r.Success? && r.value.Send? ==>
      HasToken(users, invitation.invitedUserId) &&
      r.value.request.tokens == [TokenOf(users, invitation.invitedUserId)] &&
      r.value.request.payload == InvitationPayload(invitation.groupName, invitation.groupId)
  {
    var uid := invitation.invitedUserId;
    if uid !in users then Failure(MissingUserDocument(uid))
    else if !Truthy(users[uid].fcmToken) then Success(NoSend)
    else Success(Send(SendRequest([users[uid].fcmToken.value],
                                  InvitationPayload(invitation.groupName, invitation.groupId))))
  }

  /** The recipients of a message: the group's members without the sender. */
  function MessageRecipients(group: GroupRecord, message: GroupMessage): (r: seq<DocId>)
    ensures |r| <= |MemberIds(group)|
    ensures forall uid :: uid in r <==> uid in MemberIds(group) && uid != message.senderId
  {
    var r := Recipients(MemberIds(group), message.senderId);
    forall uid ensures uid in r <==> uid in MemberIds(group) && uid != message.senderId {
      RecipientsMembership(MemberIds(group), message.senderId, uid);
    }
    r
  }

  /**
   * What the message handler decides for the group named by the document path
   * parameter `groupId`: fail when the group document is missing, send nothing
   * when no recipient has a token, and otherwise send the message payload to
   * the collected tokens.
   */
  function NewGroupMessageDecision(users: Users, groups: Groups, groupId: DocId, message: GroupMessage): (r: Outcome)
    ensures r.Failure? <==> groupId !in groups
    ensures r.Failure? ==> r.error == MissingGroupDocument(groupId)
    ensures r.Success? && r.value.Send? ==> r.value.request.tokens != []
  {
    if groupId !in groups then Failure(MissingGroupDocument(groupId))
    else
      var tokens := TokensOf(users, MessageRecipients(groups[groupId], message));
      if tokens == [] then Success(NoSend)
      else Success(Send(SendRequest(tokens, MessagePayload(groupId, MessageText(message.text)))))
  }

  /** The message handler, collecting tokens recipient by recipient. */
  method SendNewGroupMessageNotification(users: Users, groups: Groups, groupId: DocId, message: GroupMessage)
    returns (r: Outcome)
    ensures r == NewGroupMessageDecision(users, groups, groupId, message)
  {
    var messageText := MessageText(message.text);
    if groupId !in groups {
      return Failure(MissingGroupDocument(groupId));
    }
    var recipients := MessageRecipients(groups[groupId], message);
    var tokens: seq<string> := [];
    for i := 0 to |recipients|
      invariant tokens == TokensOf(users, recipients[..i])
    {
      var uid := recipients[i];
      if uid in users && Truthy(users[uid].fcmToken) {
        tokens := tokens + [users[uid].fcmToken.value];
      }
      TokensOfAppend(users, recipients[..i], uid);
      assert recipients[..i + 1] == recipients[..i] + [uid];
    }
    assert recipients[..|recipients|] == recipients;
    if |tokens| == 0 {
      return Success(NoSend);
    }
    var payload := MessagePayload(groupId, messageText);
    return Success(Send(SendRequest(tokens, payload)));
  }
}
