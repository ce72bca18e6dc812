/**
 * The two document collections the handlers read, abstracted as finite maps
 * from document id to record. A key that is not in the map is a document that
 * does not exist.
 */
module Firestore {
  import opened Wrappers

  type DocId = string

  /** A document of the `users` collection; only its `fcmToken` field is read. */
  datatype UserRecord = UserRecord(fcmToken: Option<string>)

  /** A document of the `groups` collection; only its `memberIds` field is read. */
  datatype GroupRecord = GroupRecord(memberIds: Option<seq<DocId>>)

  type Users = map<DocId, UserRecord>
  type Groups = map<DocId, GroupRecord>

  /** JavaScript truthiness of a string field: an absent field and "" are falsy. */
  predicate Truthy(s: Option<string>)
    ensures Truthy(s) <==> s.Some? && |s.value| > 0
    ensures !Truthy(s) <==> s == None || s == Some("")
  {
    s.Some? && s.value != ""
  }

  /** The user document exists and its `fcmToken` is truthy. */
  predicate HasToken(users: Users, uid: DocId)
    ensures HasToken(users, uid) <==>
      uid in users && users[uid].fcmToken != None && users[uid].fcmToken != Some("")
  {
    uid in users && Truthy(users[uid].fcmToken)
  }

  /** The token stored in a user document that has one. */
  function TokenOf(users: Users, uid: DocId): (t: string)
    requires HasToken(users, uid)
    ensures t != "" && users[uid].fcmToken == Some(t)
  {
    users[uid].fcmToken.value
  }

  /** `memberIds || []`: an absent member list reads as the empty list. */
  function MemberIds(group: GroupRecord): (ids: seq<DocId>)
    ensures group.memberIds.None? ==> ids == []
    ensures group.memberIds.Some? ==> ids == group.memberIds.value
  {
    match group.memberIds
    case Some(ids) => ids
    case None => []
  }
}
