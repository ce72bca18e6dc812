# Split app push-notification handlers — a Dafny model

The split app's cloud functions contain two handlers that run when a document
is created in the app's document database and send a push notification through
the messaging service:

- `sendGroupInvitationNotification` runs when a `group_invitations/{invitationId}`
  document is created. It reads the invited user's `fcmToken`. It sends nothing
  when that token is falsy. Otherwise it sends the invitation payload to that
  one token.
- `sendNewGroupMessageNotification` runs when a `groups/{groupId}/messages/{messageId}`
  document is created. It reads the group's `memberIds` and removes the sender.
  It then collects the `fcmToken` of each remaining member, in order, skipping
  members whose user document is missing or whose token is falsy. It sends
  nothing when no token was collected. Otherwise it sends the message payload to
  all collected tokens.

The model replaces the database with two finite maps, `users` and `groups`,
from document id to record. A key that is not in the map is a document that
does not exist. Each handler returns an `Outcome`, which is one of three things:

- `Success(NoSend)`: the handler returns `null` and sends nothing.
- `Success(Send(SendRequest(tokens, payload)))`: what would be passed to the
  messaging service's `sendToDevice`.
- `Failure(...)`: the handler dereferences `.data()` of a document that does
  not exist and throws.

Modules, one per component:

- `Wrappers`: `Option` and `Result`.
- `Firestore`: records and collections, and JavaScript truthiness of a string
  field (absent and `""` are falsy).
- `Positions`: increasing position lists. These are used to state "in order" as
  "read off the source at increasing positions".
- `RecipientResolution`: the `filter` that removes the sender.
- `TokenCollection`: the token-collection walk, specified as a function.
- `Payloads`: the default text and the two payload templates.
- `Handlers`: both handlers. The message handler is a method with the
  collection loop, proved equal to its specification function
  `NewGroupMessageDecision`.
- `HandlerProperties`: what the handlers promise, stated against the
  collections and documents.

The code works on lists, not sets, and treats a missing document as an error:

- `memberIds` is a list. Duplicates are kept, and every occurrence of the
  sender is removed.
- Tokens are not deduplicated (`MessageScenario` sends the same token twice).
- A missing group document or a missing invited-user document is an error,
  not an empty result.

## Model

| member | source | states |
|---|---|---|
| Firestore.Truthy | split_app/functions/index.js:20 | JavaScript truthiness of a string field, as tested by `!fcmToken` (line 20), `data.text \|\|` (line 43) and `&& userDoc.data().fcmToken` (line 62): truthy exactly when present and non-empty, falsy exactly when absent or `""` |
| Firestore.HasToken | split_app/functions/index.js:62 | the condition of the push: the user document exists and its `fcmToken` is neither absent nor `""` |
| Firestore.TokenOf | split_app/functions/index.js:63 | the value pushed is the user document's own `fcmToken`, and it is non-empty |
| Firestore.MemberIds | split_app/functions/index.js:51 | `memberIds \|\| []`: the stored list when present, the empty list when absent |
| Handlers.MessageRecipients | split_app/functions/index.js:51-52 | the recipients of a message are no more than the group's members, and an id is one exactly when it is a member other than the sender |
| RecipientResolution.Recipients | split_app/functions/index.js:52 | the recipient list is no longer than `memberIds` and never contains the sender |
| RecipientResolution.RecipientsMembership | split_app/functions/index.js:52 | an id is a recipient exactly when it is in `memberIds` and differs from the sender |
| RecipientResolution.RecipientsMultiplicity | split_app/functions/index.js:52 | every member other than the sender occurs as often as in `memberIds` (duplicates kept), the sender zero times |
| RecipientResolution.RecipientsOrder | split_app/functions/index.js:52 | the recipients are `memberIds` read at increasing positions, and those positions are exactly the ones not holding the sender |
| TokenCollection.TokensOf | split_app/functions/index.js:55-65 | at most one token per recipient, so the token list is never longer than the recipient list |
| TokenCollection.TokensOfConcat | split_app/functions/index.js:55-65 | collecting over two runs of recipients is collecting over each in turn, so tokens are appended in recipient order |
| TokenCollection.TokensOfAppend | split_app/functions/index.js:56-64 | one more loop iteration appends that recipient's token if it has one, and nothing otherwise |
| TokenCollection.TokensOfSkip | split_app/functions/index.js:62-64 | a recipient with a missing user document or a falsy token is skipped without affecting the tokens of the recipients before and after it |
| TokenCollection.TokensOfSound | split_app/functions/index.js:62-63 | every collected token is the `fcmToken` of some recipient whose user document exists and has a truthy (so non-empty) token |
| TokenCollection.TokensOfComplete | split_app/functions/index.js:62-63 | the token of every recipient that has one is collected |
| TokenCollection.TokensOfEmpty | split_app/functions/index.js:55-66 | nothing is collected exactly when no recipient has a token |
| TokenCollection.TokensOfOrder | split_app/functions/index.js:55-65 | the tokens are read off the recipients at increasing positions, and those positions are exactly the recipients that have a token |
| TokenCollection.TokensOfReadsOnlyRecipients | split_app/functions/index.js:56-61 | changing or removing the user document of a non-recipient does not change the collected tokens |
| Payloads.MessageText | split_app/functions/index.js:43 | the body is never empty; it is the message text exactly when the text is truthy, and "You have a new message" otherwise |
| Payloads.InvitationBody | split_app/functions/index.js:25 | the body is the fixed prefix `You have been invited to join "`, then the group name, then a closing quote |
| Payloads.InvitationBodyInjective | split_app/functions/index.js:25 | the group name can be recovered from the invitation body |
| Payloads.InvitationPayload | split_app/functions/index.js:22-31 | title "Group Invitation", the invitation body, and `data` with exactly the keys `type` = "invitation" and `groupId` |
| Payloads.MessagePayload | split_app/functions/index.js:68-77 | title "New Group Message", the given text as body, and `data` with exactly the keys `type` = "group_message" and `groupId` |
| Handlers.SendGroupInvitationNotification | split_app/functions/index.js:9-33 | fails exactly when the invited user's document is missing; sends nothing exactly when that user has no truthy token; otherwise sends the invitation payload to that single token |
| Handlers.NewGroupMessageDecision | split_app/functions/index.js:40-79 | fails exactly when the group document is missing, and never sends to an empty token list |
| Handlers.SendNewGroupMessageNotification | split_app/functions/index.js:40-79 | the handler's loop, which collects tokens recipient by recipient, produces exactly the decision `NewGroupMessageDecision` specifies |
| HandlerProperties.MessageTokensBelongToOtherMembers | split_app/functions/index.js:51-65 | every token sent belongs to a group member other than the sender, whose user document has that token |
| HandlerProperties.MessageReachesEveryOtherMember | split_app/functions/index.js:51-65 | every member other than the sender who has a token causes a send that includes that token |
| HandlerProperties.MessageNoSendIff | split_app/functions/index.js:51-66 | for an existing group, nothing is sent exactly when no member other than the sender has a token |
| HandlerProperties.MessageMissingMemberIds | split_app/functions/index.js:51 | a group document without `memberIds` is treated as having no members, so nothing is sent |
| HandlerProperties.MessageTokenBound | split_app/functions/index.js:51-65 | the number of tokens sent is at most the length of `memberIds` minus the sender's occurrences in it |
| HandlerProperties.MessageIgnoresSenderRecord | split_app/functions/index.js:52-63 | changing or removing the sender's own user document does not change the decision, so no token comes from looking up the sender |
| HandlerProperties.MessageTokenOrder | split_app/functions/index.js:51-65 | the tokens sent are read off `memberIds` at increasing positions, and those positions are exactly the members other than the sender that have a token, duplicates included |
| HandlerProperties.MessagePayloadContent | split_app/functions/index.js:41-77 | the sent payload has title "New Group Message", the text or its default as body, and `data` exactly `{type: "group_message", groupId}`, where `groupId` is the path parameter |
| HandlerProperties.InvitationReadsOnlyInvitedUser | split_app/functions/index.js:14-20 | the invitation decision does not depend on any user document except the invited user's |
| HandlerProperties.InvitationPayloadContent | split_app/functions/index.js:22-31 | the sent invitation payload has the fixed title, the body naming the group, and `data` exactly `{type: "invitation", groupId}` |
| HandlerProperties.InvitationScenario | split_app/functions/index.js:9-33 | an invitation to "Hikers" for a user with token "tok-A" sends exactly that payload to ["tok-A"] |
| HandlerProperties.MessageScenario | split_app/functions/index.js:40-79 | members [u1, u2, u3, u1] with sender u2, where u3's token is empty and the message has no text: sends ["tok_u1", "tok_u1"] with the default body |

## Left out

- Trigger registration (`functions.firestore.document(...).onCreate`) and `admin.initializeApp()` are SDK wiring. Each handler is modelled as a function of the created document, its path parameter and the collections.
- Database reads are map lookups. `async`/`await` is not modelled: the reads run one after another, and the model reads a single unchanging snapshot of both collections.
- `admin.messaging().sendToDevice` is a call to the messaging service. It is modelled as the returned `SendRequest`. Its result, per-token failures, retries and token invalidation are not modelled; the code has none of them. The invitation handler passes a single token string, which the model writes as a one-element token list.
- Document fields are modelled as strings (or absent strings, for `fcmToken` and `text`). JavaScript truthiness of non-string values (numbers, booleans) is not modelled. Neither is the `"undefined"` that template interpolation makes of a missing `groupName`.
- How `.doc(...)` resolves ids is not modelled: an empty id is rejected, and ids that contain `/` are resolved as paths (some are rejected, others name a nested document). Neither is a missing `invitedUserId` or `senderId`. The model treats every id as a plain key.
- A `memberIds` value that is present but not an array (where `.filter` would throw) is not modelled.
- `split_app/android/app/build.gradle.kts` is build configuration with no logic.
