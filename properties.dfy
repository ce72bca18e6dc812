/**
 * What the two handlers promise, stated against the collections and the
 * created documents rather than against the handlers' own definitions.
 */
module HandlerProperties {
  import opened Wrappers
  import opened Firestore
  import opened Positions
  import opened RecipientResolution
  import opened TokenCollection
  import opened Payloads
  import opened Handlers

  /** The handler produced a send request. */
  predicate Sends(r: Outcome)
  {
    r.Success? && r.value.Send?
  }

  /** Every token sent for a message belongs to a member other than the sender. */
  lemma MessageTokensBelongToOtherMembers(users: Users, groups: Groups, groupId: DocId, message: GroupMessage, t: string)
    requires Sends(NewGroupMessageDecision(users, groups, groupId, message))
    requires t in NewGroupMessageDecision(users, groups, groupId, message).value.request.tokens
    ensures exists uid :: uid in MemberIds(groups[groupId]) && uid != message.senderId && HasToken(users, uid) && TokenOf(users, uid) == t
  {
    var members := MemberIds(groups[groupId]);
    var recipients := Recipients(members, message.senderId);
    TokensOfSound(users, recipients, t);
    var uid :| uid in recipients && HasToken(users, uid) && TokenOf(users, uid) == t;
    RecipientsMembership(members, message.senderId, uid);
  }

  /** Every member other than the sender that has a token is sent to. */
  lemma MessageReachesEveryOtherMember(users: Users, groups: Groups, groupId: DocId, message: GroupMessage, uid: DocId)
    requires groupId in groups
    requires uid in MemberIds(groups[groupId]) && uid != message.senderId && HasToken(users, uid)
    ensures Sends(NewGroupMessageDecision(users, groups, groupId, message))
    ensures TokenOf(users, uid) in NewGroupMessageDecision(users, groups, groupId, message).value.request.tokens
  {
    var members := MemberIds(groups[groupId]);
    RecipientsMembership(members, message.senderId, uid);
    TokensOfComplete(users, Recipients(members, message.senderId), uid);
  }

  /** Nothing is sent for an existing group exactly when no member other than the sender has a token. */
  lemma MessageNoSendIff(users: Users, groups: Groups, groupId: DocId, message: GroupMessage)
    requires groupId in groups
    ensures NewGroupMessageDecision(users, groups, groupId, message) == Success(NoSend)
      <==> forall uid :: uid in MemberIds(groups[groupId]) && uid != message.senderId ==> !HasToken(users, uid)
  {
    var members := MemberIds(groups[groupId]);
    var recipients := Recipients(members, message.senderId);
    TokensOfEmpty(users, recipients);
    forall uid ensures uid in recipients <==> uid in members && uid != message.senderId {
      RecipientsMembership(members, message.senderId, uid);
    }
  }

  /** A group document without `memberIds` has no recipients, so nothing is sent. */
  lemma MessageMissingMemberIds(users: Users, groups: Groups, groupId: DocId, message: GroupMessage)
    requires groupId in groups && groups[groupId].memberIds.None?
    ensures NewGroupMessageDecision(users, groups, groupId, message) == Success(NoSend)
  {
  }

  /**
   * At most one token per occurrence of a member other than the sender: the
   * bound is the member list's length less the sender's occurrences.
   */
  lemma MessageTokenBound(users: Users, groups: Groups, groupId: DocId, message: GroupMessage)
    requires Sends(NewGroupMessageDecision(users, groups, groupId, message))
    ensures |NewGroupMessageDecision(users, groups, groupId, message).value.request.tokens|
      <= |MemberIds(groups[groupId])| - multiset(MemberIds(groups[groupId]))[message.senderId]
  {
    var members := MemberIds(groups[groupId]);
    var recipients := Recipients(members, message.senderId);
    RecipientsMultiplicity(members, message.senderId);
    var all := multiset(members);
    assert all == all[message.senderId := 0] + multiset{}[message.senderId := all[message.senderId]];
    assert |multiset(recipients)| == |recipients|;
  }

  /**
   * The sender's own user document never influences the decision: it can be
   * changed or removed without changing what is sent.
   */
  lemma MessageIgnoresSenderRecord(users: Users, groups: Groups, groupId: DocId, message: GroupMessage, rec: UserRecord)
    ensures NewGroupMessageDecision(users[message.senderId := rec], groups, groupId, message)
         == NewGroupMessageDecision(users, groups, groupId, message)
    ensures NewGroupMessageDecision(users - {message.senderId}, groups, groupId, message)
         == NewGroupMessageDecision(users, groups, groupId, message)
  {
    if groupId in groups {
      var recipients := Recipients(MemberIds(groups[groupId]), message.senderId);
      TokensOfReadsOnlyRecipients(users, recipients, message.senderId, rec);
    }
  }

  /** The positions of the members that are sent to, in member order. */
  ghost predicate SentPositions(tokens: seq<string>, users: Users, members: seq<DocId>, senderId: DocId, pos: seq<nat>)
  {
    |pos| == |tokens| && StrictlyIncreasing(pos) &&
    (forall k :: 0 <= k < |pos| ==>
       pos[k] < |members| && HasToken(users, members[pos[k]]) && tokens[k] == TokenOf(users, members[pos[k]])) &&
    (forall j :: 0 <= j < |members| ==> (members[j] != senderId && HasToken(users, members[j]) <==> j in pos))
  }

  /**
   * Tokens are sent in member order: they are read off the member list at
   * increasing positions, and those positions are exactly the members other
   * than the sender that have a token (duplicates included).
   */
  lemma MessageTokenOrder(users: Users, groups: Groups, groupId: DocId, message: GroupMessage) returns (pos: seq<nat>)
    requires Sends(NewGroupMessageDecision(users, groups, groupId, message))
    ensures SentPositions(NewGroupMessageDecision(users, groups, groupId, message).value.request.tokens,
                          users, MemberIds(groups[groupId]), message.senderId, pos)
  {
    pos := CollectedMemberPositions(users, MemberIds(groups[groupId]), message.senderId);
  }

  /** The token positions within the recipients, mapped back to positions within the members. */
  lemma CollectedMemberPositions(users: Users, members: seq<DocId>, senderId: DocId) returns (pos: seq<nat>)
    ensures SentPositions(TokensOf(users, Recipients(members, senderId)), users, members, senderId, pos)
  {
    var recipients := Recipients(members, senderId);
    var ridx := RecipientsOrder(members, senderId);
    var tidx := TokensOfOrder(users, recipients);
    pos := seq(|tidx|, k requires 0 <= k < |tidx| => ridx[tidx[k]]);
    ComposedIncreasing(ridx, tidx, pos);
    ComposedCover(users, members, senderId, recipients, ridx, tidx, pos);
  }

  lemma ComposedIncreasing(ridx: seq<nat>, tidx: seq<nat>, pos: seq<nat>)
    requires StrictlyIncreasing(ridx) && StrictlyIncreasing(tidx)
    requires forall k :: 0 <= k < |tidx| ==> tidx[k] < |ridx|
    requires |pos| == |tidx| && forall k :: 0 <= k < |tidx| ==> pos[k] == ridx[tidx[k]]
    ensures StrictlyIncreasing(pos)
  {
    forall a, b | 0 <= a < b < |pos| ensures pos[a] < pos[b] {
      assert tidx[a] < tidx[b];
    }
  }

  lemma ComposedCover(users: Users, members: seq<DocId>, senderId: DocId, recipients: seq<DocId>,
                      ridx: seq<nat>, tidx: seq<nat>, pos: seq<nat>)
    requires KeptPositions(recipients, members, senderId, ridx)
    requires CollectedPositions(TokensOf(users, recipients), users, recipients, tidx)
    requires |pos| == |tidx| && forall k :: 0 <= k < |tidx| ==> pos[k] == ridx[tidx[k]]
    ensures forall k :: 0 <= k < |pos| ==>
      pos[k] < |members| && HasToken(users, members[pos[k]]) && TokensOf(users, recipients)[k] == TokenOf(users, members[pos[k]])
    ensures forall j :: 0 <= j < |members| ==> (members[j] != senderId && HasToken(users, members[j]) <==> j in pos)
  {
    forall k | 0 <= k < |pos|
      ensures pos[k] < |members| && HasToken(users, members[pos[k]]) && TokensOf(users, recipients)[k] == TokenOf(users, members[pos[k]])
    {
      assert recipients[tidx[k]] == members[pos[k]];
    }
    forall j | 0 <= j < |members|
      ensures members[j] != senderId && HasToken(users, members[j]) <==> j in pos
    {
      if members[j] != senderId && HasToken(users, members[j]) {
        var a :| 0 <= a < |ridx| && ridx[a] == j;
        assert recipients[a] == members[j];
        var k :| 0 <= k < |tidx| && tidx[k] == a;
        assert pos[k] == j;
      }
      if j in pos {
        var k :| 0 <= k < |pos| && pos[k] == j;
        assert recipients[tidx[k]] == members[j];
        assert j in ridx;
      }
    }
  }

  /** The message payload: fixed title, the text or its default, and the path's group id. */
  lemma MessagePayloadContent(users: Users, groups: Groups, groupId: DocId, message: GroupMessage)
    requires Sends(NewGroupMessageDecision(users, groups, groupId, message))
    ensures var p := NewGroupMessageDecision(users, groups, groupId, message).value.request.payload;
      p.notification.title == "New Group Message" &&
      (Truthy(message.text) ==> p.notification.body == message.text.value) &&
      (!Truthy(message.text) ==> p.notification.body == "You have a new message") &&
      p.data == map["type" := "group_message", "groupId" := groupId]
  {
    var p := NewGroupMessageDecision(users, groups, groupId, message).value.request.payload;
    assert p.data.Keys == map["type" := "group_message", "groupId" := groupId].Keys;
  }

  /** The invitation decision reads no user document but the invited user's. */
  lemma InvitationReadsOnlyInvitedUser(users: Users, invitation: GroupInvitation, uid: DocId, rec: UserRecord)
    requires uid != invitation.invitedUserId
    ensures SendGroupInvitationNotification(users[uid := rec], invitation) == SendGroupInvitationNotification(users, invitation)
    ensures SendGroupInvitationNotification(users - {uid}, invitation) == SendGroupInvitationNotification(users, invitation)
  {
  }

  /** The invitation payload, field by field. */
  lemma InvitationPayloadContent(users: Users, invitation: GroupInvitation)
    requires Sends(SendGroupInvitationNotification(users, invitation))
    ensures var p := SendGroupInvitationNotification(users, invitation).value.request.payload;
      p.notification.title == "Group Invitation" &&
      p.notification.body == "You have been invited to join \"" + invitation.groupName + "\"" &&
      p.data == map["type" := "invitation", "groupId" := invitation.groupId]
  {
    var p := SendGroupInvitationNotification(users, invitation).value.request.payload;
    assert p.data.Keys == map["type" := "invitation", "groupId" := invitation.groupId].Keys;
  }

  /** An invitation to "Hikers" for a user whose token is "tok-A". */
  lemma InvitationScenario()
    ensures SendGroupInvitationNotification(map["u1" := UserRecord(Some("tok-A"))], GroupInvitation("u1", "Hikers", "g1"))
      == Success(Send(SendRequest(["tok-A"],
           Payload(Notification("Group Invitation", "You have been invited to join \"Hikers\""),
                   map["type" := "invitation", "groupId" := "g1"]))))
  {
    assert InvitationBody("Hikers") == "You have been invited to join \"Hikers\"";
  }

  /**
   * Members [u1, u2, u3, u1], sender u2, a token for u1 and u2 and an empty one
   * for u3, no message text: u1 is sent to twice, u2 and u3 not at all, and the
   * body is the default.
   */
  lemma MessageScenario()
    ensures NewGroupMessageDecision(
              map["u1" := UserRecord(Some("tok_u1")), "u2" := UserRecord(Some("tok_u2")), "u3" := UserRecord(Some(""))],
              map["g1" := GroupRecord(Some(["u1", "u2", "u3", "u1"]))],
              "g1", GroupMessage("u2", None))
      == Success(Send(SendRequest(["tok_u1", "tok_u1"],
           Payload(Notification("New Group Message", "You have a new message"),
                   map["type" := "group_message", "groupId" := "g1"]))))
  {
    var users := map["u1" := UserRecord(Some("tok_u1")), "u2" := UserRecord(Some("tok_u2")), "u3" := UserRecord(Some(""))];
    var members := ["u1", "u2", "u3", "u1"];
    assert members[1..] == ["u2", "u3", "u1"] && members[1..][1..] == ["u3", "u1"] && members[1..][1..][1..] == ["u1"];
    assert Recipients(["u1"], "u2") == ["u1"] by { assert ["u1"][1..] == []; }
    assert Recipients(members, "u2") == ["u1", "u3", "u1"];
    var recipients := ["u1", "u3", "u1"];
    assert recipients[1..] == ["u3", "u1"] && recipients[1..][1..] == ["u1"];
    assert TokensOf(users, ["u1"]) == ["tok_u1"] by { assert ["u1"][1..] == []; }
    assert TokensOf(users, recipients) == ["tok_u1", "tok_u1"];
  }
}
