/**
 * Token collection of the group-message handler, as a specification: walking
 * the recipients in order, a recipient whose user document is missing or whose
 * `fcmToken` is falsy is skipped, and every other recipient's token is appended.
 * Tokens are not deduplicated.
 */
module TokenCollection {
  import opened Firestore
  import opened Positions

  function TokensOf(users: Users, recipients: seq<DocId>): (tokens: seq<string>)
    ensures |tokens| <= |recipients|
  {
    if recipients == [] then []
    else
      (if HasToken(users, recipients[0]) then [TokenOf(users, recipients[0])] else [])
      + TokensOf(users, recipients[1..])
  }

  /**
   * `tokens` is read off `recipients` at the increasing positions `idx`, and those
   * positions are exactly the recipients that have a token.
   */
  ghost predicate CollectedPositions(tokens: seq<string>, users: Users, recipients: seq<DocId>, idx: seq<nat>)
  {
    |idx| == |tokens| && StrictlyIncreasing(idx) &&
    (forall k :: 0 <= k < |idx| ==>
       idx[k] < |recipients| && HasToken(users, recipients[idx[k]]) && tokens[k] == TokenOf(users, recipients[idx[k]])) &&
    (forall j :: 0 <= j < |recipients| ==> (HasToken(users, recipients[j]) <==> j in idx))
  }

  /** Collecting over two runs of recipients is collecting over each in turn. */
  lemma {:induction false} TokensOfConcat(users: Users, a: seq<DocId>, b: seq<DocId>)
    ensures TokensOf(users, a + b) == TokensOf(users, a) + TokensOf(users, b)
  {
    if a == [] {
      assert a + b == b;
    } else {
      TokensOfConcat(users, a[1..], b);
      assert (a + b)[0] == a[0] && (a + b)[1..] == a[1..] + b;
    }
  }

  /** One more recipient adds its token, if it has one, at the end. */
  lemma TokensOfAppend(users: Users, recipients: seq<DocId>, uid: DocId)
    ensures TokensOf(users, recipients + [uid])
      == TokensOf(users, recipients) + (if HasToken(users, uid) then [TokenOf(users, uid)] else [])
  {
    TokensOfConcat(users, recipients, [uid]);
    assert [uid][1..] == [];
  }

  /** A recipient without a usable token is skipped; the walk goes on with the rest. */
  lemma TokensOfSkip(users: Users, before: seq<DocId>, uid: DocId, after: seq<DocId>)
    requires !HasToken(users, uid)
    ensures TokensOf(users, before + [uid] + after) == TokensOf(users, before) + TokensOf(users, after)
  {
    TokensOfConcat(users, before + [uid], after);
    TokensOfConcat(users, before, [uid]);
    assert TokensOf(users, [uid]) == [] by {
      assert [uid][1..] == [];
    }
  }

  /** Every collected token is the token of some recipient that has one. */
  lemma {:induction false} TokensOfSound(users: Users, recipients: seq<DocId>, t: string)
    requires t in TokensOf(users, recipients)
    ensures exists uid :: uid in recipients && HasToken(users, uid) && TokenOf(users, uid) == t
  {
    var rest := TokensOf(users, recipients[1..]);
    if HasToken(users, recipients[0]) && t == TokenOf(users, recipients[0]) {
      assert recipients[0] in recipients;
    } else {
      assert t in rest;
      TokensOfSound(users, recipients[1..], t);
      var uid :| uid in recipients[1..] && HasToken(users, uid) && TokenOf(users, uid) == t;
      assert uid in recipients;
    }
  }

  /** The token of every recipient that has one is collected. */
  lemma {:induction false} TokensOfComplete(users: Users, recipients: seq<DocId>, uid: DocId)
    requires uid in recipients && HasToken(users, uid)
    ensures TokenOf(users, uid) in TokensOf(users, recipients)
  {
    if recipients[0] != uid {
      assert uid in recipients[1..];
      TokensOfComplete(users, recipients[1..], uid);
    }
  }

  /** Nothing is collected exactly when no recipient has a token. */
  lemma TokensOfEmpty(users: Users, recipients: seq<DocId>)
    ensures TokensOf(users, recipients) == [] <==> forall uid :: uid in recipients ==> !HasToken(users, uid)
  {
    if TokensOf(users, recipients) == [] {
      forall uid | uid in recipients ensures !HasToken(users, uid) {
        if HasToken(users, uid) {
          TokensOfComplete(users, recipients, uid);
        }
      }
    } else {
      TokensOfSound(users, recipients, TokensOf(users, recipients)[0]);
    }
  }

  /** Tokens appear in recipient order: the list is read off the recipients that have a token. */
  lemma {:induction false} TokensOfOrder(users: Users, recipients: seq<DocId>) returns (idx: seq<nat>)
    ensures CollectedPositions(TokensOf(users, recipients), users, recipients, idx)
  {
    if recipients == [] {
      idx := [];
    } else {
      var rest := TokensOfOrder(users, recipients[1..]);
      var head: seq<nat> := if HasToken(users, recipients[0]) then [0] else [];
      idx := head + Shift(rest);
      ConsIncreasing(head, rest);
      TokensConsValues(users, recipients, rest, head);
      TokensConsCover(users, recipients, rest, head);
    }
  }

  lemma TokensConsValues(users: Users, recipients: seq<DocId>, rest: seq<nat>, head: seq<nat>)
    requires recipients != []
    requires head == if HasToken(users, recipients[0]) then [0] else []
    requires |rest| == |TokensOf(users, recipients[1..])|
    requires forall k :: 0 <= k < |rest| ==>
      rest[k] < |recipients[1..]| && HasToken(users, recipients[1..][rest[k]]) &&
      TokensOf(users, recipients[1..])[k] == TokenOf(users, recipients[1..][rest[k]])
    ensures |head + Shift(rest)| == |TokensOf(users, recipients)|
    ensures forall k :: 0 <= k < |head + Shift(rest)| ==>
      (head + Shift(rest))[k] < |recipients| && HasToken(users, recipients[(head + Shift(rest))[k]]) &&
      TokensOf(users, recipients)[k] == TokenOf(users, recipients[(head + Shift(rest))[k]])
  {
    var rt := TokensOf(users, recipients[1..]);
    var r := TokensOf(users, recipients);
    var idx := head + Shift(rest);
    assert r == (if HasToken(users, recipients[0]) then [TokenOf(users, recipients[0])] else []) + rt;
    assert |idx| == |r|;
    forall k | 0 <= k < |idx|
      ensures idx[k] < |recipients| && HasToken(users, recipients[idx[k]]) && r[k] == TokenOf(users, recipients[idx[k]])
    {
      if k >= |head| {
        var i := k - |head|;
        assert idx[k] == rest[i] + 1 && r[k] == rt[i];
        TokenAtTail(users, recipients, rest[i], rt[i]);
      }
    }
  }

  /** A token found at position p of the tail is the token at position p + 1 of the whole list. */
  lemma TokenAtTail(users: Users, recipients: seq<DocId>, p: nat, t: string)
    requires p < |recipients| - 1 && HasToken(users, recipients[1..][p]) && t == TokenOf(users, recipients[1..][p])
    ensures HasToken(users, recipients[p + 1]) && t == TokenOf(users, recipients[p + 1])
  {
    assert recipients[p + 1] == recipients[1..][p];
  }

  lemma TokensConsCover(users: Users, recipients: seq<DocId>, rest: seq<nat>, head: seq<nat>)
    requires recipients != []
    requires head == if HasToken(users, recipients[0]) then [0] else []
    requires forall j :: 0 <= j < |recipients[1..]| ==> (HasToken(users, recipients[1..][j]) <==> j in rest)
    ensures forall j :: 0 <= j < |recipients| ==> (HasToken(users, recipients[j]) <==> j in head + Shift(rest))
  {
    forall j | 0 <= j < |recipients|
      ensures HasToken(users, recipients[j]) <==> j in head + Shift(rest)
    {
      ShiftMembers(rest, j);
      if j > 0 {
        assert recipients[j] == recipients[1..][j - 1];
      }
    }
  }

  /** Collection reads only the user documents of the recipients themselves. */
  lemma {:induction false} TokensOfReadsOnlyRecipients(users: Users, recipients: seq<DocId>, uid: DocId, rec: UserRecord)
    requires uid !in recipients
    ensures TokensOf(users[uid := rec], recipients) == TokensOf(users, recipients)
    ensures TokensOf(users - {uid}, recipients) == TokensOf(users, recipients)
  {
    if recipients != [] {
      assert recipients[0] != uid;
      TokensOfReadsOnlyRecipients(users, recipients[1..], uid, rec);
    }
  }
}
