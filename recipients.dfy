/**
 * Recipient resolution of the group-message handler: the group's member list
 * with the sender filtered out (`memberIds.filter((uid) => uid !== senderId)`).
 * The member list is a sequence: duplicates survive and keep their order, and
 * every occurrence of the sender is removed.
 */
module RecipientResolution {
  import opened Firestore
  import opened Positions

  function Recipients(memberIds: seq<DocId>, senderId: DocId): (r: seq<DocId>)
    ensures |r| <= |memberIds|
    ensures senderId !in r
  {
    if memberIds == [] then []
    else (if memberIds[0] != senderId then [memberIds[0]] else []) + Recipients(memberIds[1..], senderId)
  }

  /**
   * `r` is read off `memberIds` at the increasing positions `idx`, and those
   * positions are exactly the ones not holding the sender.
   */
  ghost predicate KeptPositions(r: seq<DocId>, memberIds: seq<DocId>, senderId: DocId, idx: seq<nat>)
  {
    |idx| == |r| && StrictlyIncreasing(idx) &&
    (forall k :: 0 <= k < |idx| ==> idx[k] < |memberIds| && r[k] == memberIds[idx[k]]) &&
    (forall j :: 0 <= j < |memberIds| ==> (memberIds[j] != senderId <==> j in idx))
  }

  /** A member is a recipient exactly when it is in the list and is not the sender. */
  lemma {:induction false} RecipientsMembership(memberIds: seq<DocId>, senderId: DocId, uid: DocId)
    ensures uid in Recipients(memberIds, senderId) <==> uid in memberIds && uid != senderId
  {
    if memberIds != [] {
      RecipientsMembership(memberIds[1..], senderId, uid);
      assert memberIds == [memberIds[0]] + memberIds[1..];
    }
  }

  /** Each member other than the sender occurs as often as in the member list; the sender never. */
  lemma {:induction false} RecipientsMultiplicity(memberIds: seq<DocId>, senderId: DocId)
    ensures multiset(Recipients(memberIds, senderId)) == multiset(memberIds)[senderId := 0]
  {
    if memberIds != [] {
      var tail := memberIds[1..];
      RecipientsMultiplicity(tail, senderId);
      assert memberIds == [memberIds[0]] + tail;
      assert multiset(memberIds) == multiset{memberIds[0]} + multiset(tail);
      var first := if memberIds[0] != senderId then [memberIds[0]] else [];
      assert Recipients(memberIds, senderId) == first + Recipients(tail, senderId);
      assert multiset(Recipients(memberIds, senderId)) == multiset(first) + multiset(Recipients(tail, senderId));
    }
  }

  /** The recipient list keeps the members' order: it is the subsequence of non-sender positions. */
  lemma {:induction false} RecipientsOrder(memberIds: seq<DocId>, senderId: DocId) returns (idx: seq<nat>)
    ensures KeptPositions(Recipients(memberIds, senderId), memberIds, senderId, idx)
  {
    if memberIds == [] {
      idx := [];
    } else {
      var rest := RecipientsOrder(memberIds[1..], senderId);
      idx := ConsPositions(memberIds, senderId, rest);
    }
  }

  /** Positions for a non-empty member list, from the positions for its tail. */
  lemma ConsPositions(memberIds: seq<DocId>, senderId: DocId, rest: seq<nat>) returns (idx: seq<nat>)
    requires memberIds != []
    requires KeptPositions(Recipients(memberIds[1..], senderId), memberIds[1..], senderId, rest)
    ensures KeptPositions(Recipients(memberIds, senderId), memberIds, senderId, idx)
  {
    var head: seq<nat> := if memberIds[0] != senderId then [0] else [];
    idx := head + Shift(rest);
    ConsIncreasing(head, rest);
    ConsValues(memberIds, senderId, rest, head);
    ConsCover(memberIds, senderId, rest, head);
  }

  lemma ConsValues(memberIds: seq<DocId>, senderId: DocId, rest: seq<nat>, head: seq<nat>)
    requires memberIds != []
    requires head == if memberIds[0] != senderId then [0] else []
    requires |rest| == |Recipients(memberIds[1..], senderId)|
    requires forall k :: 0 <= k < |rest| ==>
      rest[k] < |memberIds[1..]| && Recipients(memberIds[1..], senderId)[k] == memberIds[1..][rest[k]]
    ensures |head + Shift(rest)| == |Recipients(memberIds, senderId)|
    ensures forall k :: 0 <= k < |head + Shift(rest)| ==>
      (head + Shift(rest))[k] < |memberIds| && Recipients(memberIds, senderId)[k] == memberIds[(head + Shift(rest))[k]]
  {
    var idx := head + Shift(rest);
    var tail := memberIds[1..];
    var rt := Recipients(tail, senderId);
    var r := Recipients(memberIds, senderId);
    assert r == (if memberIds[0] != senderId then [memberIds[0]] else []) + rt;
    forall k | 0 <= k < |idx|
      ensures idx[k] < |memberIds| && r[k] == memberIds[idx[k]]
    {
      if k >= |head| {
        assert idx[k] == rest[k - |head|] + 1;
        assert memberIds[idx[k]] == tail[rest[k - |head|]];
        assert r[k] == rt[k - |head|];
      }
    }
  }

  lemma ConsCover(memberIds: seq<DocId>, senderId: DocId, rest: seq<nat>, head: seq<nat>)
    requires memberIds != []
    requires head == if memberIds[0] != senderId then [0] else []
    requires forall j :: 0 <= j < |memberIds[1..]| ==> (memberIds[1..][j] != senderId <==> j in rest)
    ensures forall j :: 0 <= j < |memberIds| ==> (memberIds[j] != senderId <==> j in head + Shift(rest))
  {
    var tail := memberIds[1..];
    var idx := head + Shift(rest);
    forall j | 0 <= j < |memberIds|
      ensures memberIds[j] != senderId <==> j in idx
    {
      ShiftMembers(rest, j);
      if j > 0 {
        assert memberIds[j] == tail[j - 1];
      }
    }
  }
}
