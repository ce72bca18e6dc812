/**
 * The two notification payloads. Each event type has a fixed title, a body and
 * a `data` envelope holding the event type and the group id; the mobile client
 * relies on these field names.
 */
module Payloads {
  import opened Wrappers
  import opened Firestore

  datatype Notification = Notification(title: string, body: string)
  datatype Payload = Payload(notification: Notification, data: map<string, string>)

  const InvitationTitle: string := "Group Invitation"
  const InvitationBodyPrefix: string := "You have been invited to join \""
  const InvitationType: string := "invitation"

  const MessageTitle: string := "New Group Message"
  const DefaultMessageText: string := "You have a new message"
  const MessageType: string := "group_message"

  /**
   * `text || "You have a new message"`: the message's own text when it is
   * truthy, the default otherwise; never an empty body.
   */
  function MessageText(text: Option<string>): (body: string)
    ensures body != ""
    ensures Truthy(text) <==> text == Some(body)
    ensures !Truthy(text) ==> body == DefaultMessageText
  {
    if Truthy(text) then text.value else DefaultMessageText
  }

  /** The template `You have been invited to join "<groupName>"`. */
  function InvitationBody(groupName: string): (body: string)
    ensures |body| == |InvitationBodyPrefix| + |groupName| + 1
    ensures body[..|InvitationBodyPrefix|] == InvitationBodyPrefix
    ensures body[|InvitationBodyPrefix|..|body| - 1] == groupName
    ensures body[|body| - 1] == '"'
  {
    InvitationBodyPrefix + groupName + "\""
  }

  /** The group name can be read back out of an invitation body. */
  lemma InvitationBodyInjective(a: string, b: string)
    requires InvitationBody(a) == InvitationBody(b)
    ensures a == b
  {
    var body := InvitationBody(a);
    assert a == body[|InvitationBodyPrefix|..|body| - 1];
  }

  /** The `data` envelope: exactly the keys `type` and `groupId`. */
  ghost predicate Envelope(data: map<string, string>, eventType: string, groupId: string)
  {
    data.Keys == {"type", "groupId"} && data["type"] == eventType && data["groupId"] == groupId
  }

  function InvitationPayload(groupName: string, groupId: string): (p: Payload)
    ensures p.notification.title == InvitationTitle
    ensures p.notification.body == InvitationBody(groupName)
    ensures Envelope(p.data, InvitationType, groupId)
  {
    Payload(Notification(InvitationTitle, InvitationBody(groupName)),
            map["type" := InvitationType, "groupId" := groupId])
  }

  function MessagePayload(groupId: string, messageText: string): (p: Payload)
    ensures p.notification.title == MessageTitle
    ensures p.notification.body == messageText
    ensures Envelope(p.data, MessageType, groupId)
  {
    Payload(Notification(MessageTitle, messageText),
            map["type" := MessageType, "groupId" := groupId])
  }
}
