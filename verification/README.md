# UNSW Beans workspace store, modelled in Dafny

UNSW Beans is a Slack-like chat server. Its handlers keep one in-memory
store: users, sessions, channels, direct messages (DMs), per-user and
workspace statistics. This project models that store and the operations on
it as pure state transitions. Each handler is a function from a `Store`
(and its request arguments, plus the current time `now`) to
`Result<...>`. An error is one of `BadRequest` (HTTP 400), `Forbidden`
(403) or `Crashed`. `Crashed` stands for an unhandled JavaScript
exception, such as reading a property of `undefined`. Inside a request
handler it is answered with HTTP 500. Inside a timer callback (a standup's
flush, a delayed send) no request is pending and no handler for uncaught
exceptions is installed, so it stops the server process. Every error check
is placed in the order the handler makes it.

Modules follow the source files:

- `Types` (`types.dfy`): the records and the lookups every handler starts
  with.
- `MessageIds` (`ids.dfy`): the workspace-wide message id allocator, and
  the invariant that message ids are unique.
- `Standups` (`standup.dfy`): the per-channel standup state machine. The
  flush that the timer triggers is an explicit transition here.
- `Ledger` (`ledger.dfy`): the statistics series and the two derived
  rates.
- `Channels`, `ChannelOps`, `Dms`, `Messages`, `Users`, `Auth`, `Admin`,
  `Other`: the handlers of the same-named source files.
- `Pages`: newest-first paging of messages.
- `Text` (`strings.dfy`), `Base`: shared helpers.

Sessions are opaque keys in a list of `(uId, key)` pairs. An unknown key is
the 403 that the token validator raises. Wall-clock time, the email
validator (`isEmail`) and the session key of a new registration are
parameters.

## Model

| member | source | states |
|---|---|---|
| Types.InitialStore | src/other.ts:17-30 | The reset store: no users, channels, sessions or DMs, no statistics, utilization 0 |
| Types.TokenUser | src/valid.ts:13-32 | A token names a user exactly when some stored session has that key, and that session belongs to the user returned |
| Types.NotifyKeepsUsers | src/channel.ts:214-219 | Prepending a notification changes no user id, so the same ids stay registered |
| MessageIds.NextId | src/message.ts:42-57 | The next message id exceeds every id in every channel and DM, is itself unused, and is 0 or one more than an existing id |
| MessageIds.Locate | src/message.ts:133-152 | A lookup by message id finds a stored message with that id, and fails exactly when no channel or DM holds one |
| MessageIds.LocatedIsOnly | src/message.ts:133-152 | With unique ids, two locations holding the same id are the same location |
| MessageIds.AppendFreshKeepsUnique | src/message.ts:86-97 | Appending a message with a fresh id to one container keeps all message ids distinct |
| MessageIds.InsertEmptyKeepsUnique | src/channels.ts:69-92 | Adding an empty channel or DM keeps all message ids distinct |
| Standups.StandupStart | src/standup.ts:32-60 | Errors come in the order: token 403, unknown channel 400, negative length 400, standup already running 400, non-member 403. Success marks the standup running, with finish time now + length and the caller as creator, and returns that finish time |
| Standups.StandupActive | src/standup.ts:157-181 | Read-only: a member gets the channel's running flag and finish time. Errors are 403, 400, 403 |
| Standups.StandupSend | src/standup.ts:200-239 | Errors come in the order: token, unknown channel, text over 1000, no running standup, non-member. An empty text is accepted. Success appends the caller's handle and the text to the two buffers, and nothing else changes |
| Standups.StandupFlush | src/standup.ts:64-134 | Total: a channel id that no longer finds a channel (after a reset) is `Crashed`, an uncaught exception in the timer that stops the server. The timer does not check that the standup is the one it scheduled. Empty buffers: no message is posted and the default record is restored. Otherwise exactly one message is appended, with the next id, the creator as sender, the finish time, no reacts and not pinned. Nothing else in the store changes |
| Standups.TranscriptAppend | src/standup.ts:88-93 | Buffering one more pair adds exactly the entry `handle: line\n` at the end of the transcript |
| Standups.TwoLineTranscript | src/tests/standup.test.ts:47-50 | Two buffered pairs give the body "a: hi\nb: yo\n" |
| Standups.StartKeepsWellFormed | src/standup.ts:57-60 | Start keeps every standup well formed: the buffers have equal length, and a stopped standup is the default record |
| Standups.SendKeepsWellFormed | src/standup.ts:233-236 | Send keeps the two buffers the same length |
| Standups.FlushKeepsWellFormed | src/standup.ts:124-132 | After a flush the channel holds the default standup record again |
| Standups.FlushKeepsIdsUnique | src/standup.ts:96-112 | The posted standup message takes a fresh id, so message ids stay unique |
| Standups.StartThenActive | src/standup.ts:164-180 | After a successful start, the active query reports running with finish time now + length |
| Standups.FlushOfWellFormedSucceeds | src/standup.ts:68-71 | In a store whose standups are well formed, the flush succeeds exactly when the channel id still finds a channel |
| Standups.FlushAfterClearCrashes | src/standup.ts:68-71 | A flush firing after the workspace was reset finds no channel and is `Crashed`: reading a property of `undefined` inside the timer, which stops the server |
| Standups.FlushOfIdleChangesNothing | src/standup.ts:72-86 | A flush reaching a channel with no running standup writes back the default record it already has, so the store is unchanged |
| Ledger.SeedStats | src/auth.ts:140-162 | A new user's three series each hold exactly one zero sample at the registration time, and the involvement rate is 0 |
| Ledger.Bump | src/message.ts:99-104 | One sample, previous value + delta, is appended to the chosen series of one user. Every other series and every other user is unchanged |
| Ledger.BumpAllSeries | src/dm.ts:93-100 | Bumping a member list gives each user one sample per occurrence in the list. The current value moves by delta per occurrence, and earlier samples are kept |
| Ledger.BumpAllOthers | src/dm.ts:93-100 | Bumping one series leaves the other series of every user unchanged |
| Ledger.Record | src/channels.ts:96-99 | The +1/-1 step succeeds exactly when the user has a statistics record (otherwise 500), and then is `Bump` |
| Ledger.RecordAll | src/dm.ts:93-100 | The step for a list succeeds exactly when every listed user has a record, and then bumps each in order |
| Ledger.Involvement | src/users.ts:258-266 | The rate is 0 for a zero denominator, numerator/denominator when that is at most 1, and 1 when the numerator reaches the denominator |
| Ledger.UserStatsOp | src/users.ts:232-281 | Token 403, no statistics record 500, and otherwise success. Appends no sample. It stores and returns the recomputed involvement (sum of the three current values over channels + DMs + the message count of the last container only), and returns the three series as stored |
| Ledger.UserStatsSettles | src/users.ts:258-268 | The returned involvement is the one stored, asking again returns the same answer and store, and the rate lies in [0, 1] whenever its numerator is non-negative |
| Ledger.LastChannelUser | src/users.ts:329-341 | The id left in the first loop's variable is that of the last user, in storage order, who holds a channel-membership entry, and -1 when no user does. With non-negative ids, -1 means exactly that no user is in a channel |
| Ledger.UsersStatsOp | src/users.ts:292-365 | Token 403. Otherwise appends exactly one sample to each workspace series: the channel count, the DM count, and the message total over all containers. It stores the utilization as computed (channel entries of every user plus DM entries of every user other than the last channel user, over the user count, uncapped), and nothing else changes |
| Ledger.IntendedUtilization | src/users.ts:353-361 | The documented utilization: the share of users who belong to some channel or DM, in [0, 1], and 0 with no users |
| Ledger.UtilizationCanExceedOne | src/users.ts:332-355 | One user who is a member of two channels gives a computed utilization of 2.0, where the share of users is 1.0 |
| Ledger.UtilizationAgreesOnSingles | src/users.ts:332-355 | When no user is in a DM and each user has at most one channel entry in total, the computed rate equals the share of users |
| Ledger.UsersStatsIntended | src/users.ts:292-365 | The same outcome and series as the handler, with the utilization replaced by the share of users, which lies in [0, 1] |
| Pages.MarkReacts | src/channel.ts:81-89 | Each react's flag says whether the caller is among its users. Everything else in the message is unchanged |
| Pages.MarkIdempotent | src/channel.ts:81-89 | Marking twice is marking once |
| Pages.PageOf | src/channel.ts:67-94 | A page lists min(50, count - start) messages newest first from `start`. `end` is start + 50 exactly when more than start + 50 messages exist, else -1. The stored messages keep their ids and order |
| Pages.NextPageContinues | src/channel.ts:67-94 | Following `end` continues the listing with no gap and no overlap |
| Users.UserProfile | src/users.ts:31-58 | Token 403, unknown user 400. Otherwise the stored fields of the user, with the `userStats` field equal to the permission id |
| Users.UserSetName | src/users.ts:73-97 | Token 403. Success iff both names have 1..50 characters (else 400). The names of the record with id 0 change, and nothing else |
| Users.UserSetEmail | src/users.ts:111-137 | Token 403. Success iff the email is valid and held by no one (else 400). The email of the record with id 0 changes |
| Users.UserSetHandle | src/users.ts:152-181 | Token 403. Success iff the handle has 3..20 alphanumeric characters and is held by no one (else 400). The handle of the record with id 0 changes |
| Users.SettersIgnoreCaller | src/users.ts:73-181 | Any two valid sessions produce the same outcome from each setter |
| Users.SetHandleTargetsUserZero | src/users.ts:159-178 | After a successful handle change, user 0 holds the new handle, which no one held before |
| Users.UsersAll | src/users.ts:200-222 | One entry per user record, in storage order, carrying its id, email, names and handle |
| Users.UsersAllMatchesProfiles | src/users.ts:200-222 | With unique user ids, every entry of the listing agrees with the profile query for that id |
| Text.Sort | src/dm.ts:54 | The result is sorted by character codes and is a permutation of the input |
| Text.SortedUnique | src/dm.ts:54 | Two sorted lists holding the same strings are equal, so the sort depends only on the multiset of its input |
| Text.ParseNatToString | src/auth.ts:107-117 | Reading back the decimal rendering of a number gives the number |
| Text.NatToStringInjective | src/auth.ts:107-117 | Distinct numbers render as distinct strings |
| Base.Utf16Len | src/message.ts:34 | A string's length as JavaScript counts it, in UTF-16 code units: between the number of characters and twice it, and 0 only for the empty string |
| Base.Utf16LenAppend | src/message.ts:34 | The UTF-16 length of a concatenation is the sum of the lengths |
| Base.EmojiCountsTwice | src/message.ts:34 | A character outside the Basic Multilingual Plane is one character but two code units |
| Dms.DmNameIsSortedJoin | src/dm.ts:44-59 | The name is any sorted arrangement of the members' handles joined by ", ". The sorted arrangement is unique, so this fixes the name |
| Dms.DmNameOrderIndependent | src/dm.ts:44-59 | The name depends only on which handles there are, not on their order |
| Dms.SetSizeIffDistinct | src/dm.ts:28-42 | The set of uIds is as large as the list exactly when no uId repeats |
| Dms.NextDmId | src/dm.ts:62-91 | 0 for the first DM, otherwise exactly one more than the last DM's id |
| Dms.NextDmIdIsFresh | src/dm.ts:62-91 | When DM ids increase along the list, the next DM id is larger than every existing one |
| Dms.DmCreateKeepsIdsIncreasing | src/dm.ts:62-105 | Creating a DM keeps DM ids increasing, and the new id is held by no earlier DM |
| Dms.DmCreate | src/dm.ts:22-105 | Token 403, repeated uId 400, unknown uId 400. After those checks it succeeds exactly when the creator's id is a position in the user list, the creator has a record whenever there are invitees, and every member has a statistics record; otherwise 500. The new DM is appended with the next DM id, owners [creator], members creator then uIds, no messages, and the name of the sorted handles. Each member gets one DM sample of +1, and only notifications change in the users |
| Dms.DmCreateNameIgnoresOrder | src/dm.ts:44-59 | Listing the same invitees in another order gives the same DM name |
| Dms.DmCreateCounts | src/dm.ts:93-100 | Each member's DM count grows by their occurrences in the member list: by 1 when the creator did not list themselves. Non-members are unchanged |
| Dms.DmList | src/dm.ts:117-137 | Token 403. Otherwise exactly the DMs whose members include the caller |
| Dms.DmListOnce | src/dm.ts:117-137 | With increasing DM ids, the listing has strictly increasing ids, so no DM is listed twice |
| Dms.CreateThenListed | src/dm.ts:22-137 | After a DM is created, its creator's listing contains the new DM's id and name |
| Dms.DmRemove | src/dm.ts:152-193 | Token 403, unknown DM 400, non-member or non-owner 403. Only that DM is removed, and each former member gets a DM sample of -1 |
| Dms.DmRemoveKeepsIdsUnique | src/dm.ts:152-193 | Removing a DM keeps the remaining message ids unique |
| Dms.DmDetails | src/dm.ts:208-231 | Token 403, unknown DM 400, non-member 403. Otherwise the DM's name and its members' profiles |
| Dms.CreateThenDetails | src/dm.ts:22-231 | After a DM is created, its details name it as created and list the profiles of the creator and then each invitee, in order |
| Dms.ForOfSpliceOnce | src/dm.ts:264-273 | When the caller is met once, the for-of loop splices exactly once, at the position it computes |
| Dms.DmLeave | src/dm.ts:245-286 | Token 403, unknown DM 400, non-member 403, no DM at position dmId 500. Only the DM at that position changes (its messages and id are kept), and the caller gets a DM sample of -1 |
| Dms.DmLeaveRemovesCaller | src/dm.ts:252-274 | When a DM's id is its position and the caller is listed once, leaving removes exactly the caller from both lists |
| Dms.AppendToDmsIsOne | src/dm.ts:373-386 | With distinct DM ids, appending to every DM with that id appends to the one found |
| Dms.MessageSendDm | src/dm.ts:302-398 | Token 403, unknown DM 400, non-member 403, length outside 1..1000 400. The message gets the workspace-wide next id and the sender a message sample of +1 |
| Dms.MessageSendDmKeepsIdsUnique | src/dm.ts:329-344 | The sent DM message is the DM's last one, and message ids stay unique |
| Dms.DmMessages | src/dm.ts:424-473 | Token 403, unknown DM 400, non-member 403, no DM at position dmId 500, start outside 0..count 400. Otherwise the newest-first page from start, read from the DM at that position |
| Messages.UpdateAtElsewhere | src/message.ts:179-193 | Replacing one message leaves every other message and every membership list unchanged |
| Messages.MessageSend | src/message.ts:19-108 | The standup query's errors come first. While a standup runs, the text goes to the standup buffer and no id is returned. Otherwise length outside 1..1000 is 400, the message is appended with the next id and a single empty react, and the sender gets +1 |
| Messages.MessageSendKeepsIdsUnique | src/message.ts:42-57 | The sent message is the channel's last one, and message ids stay unique |
| Messages.AppendToChannelsIsOne | src/message.ts:86-97 | With distinct channel ids, appending to every channel with that id appends to the one found |
| Messages.SpliceMatchingOnce | src/message.ts:286-306 | The for-in splice loop removes exactly the one matching message when there is one |
| Messages.SweepDeletesOne | src/message.ts:286-306 | With unique ids, the removal loops delete exactly the located message, and ids stay unique |
| Messages.MessageRemove | src/message.ts:240-310 | Token 403, unknown id 400, caller neither the sender nor an owner of the container 403. No statistics sample is taken |
| Messages.MessageRemoveDeletesOne | src/message.ts:286-306 | A removal deletes exactly the message with that id. Every other message stays in order, and ids stay unique |
| Messages.MessageEdit | src/message.ts:120-229 | Token 403, text over 1000 400, unknown id 400, not permitted 403. An empty text removes the message, and any other text replaces the text |
| Messages.MessageEditChangesOne | src/message.ts:170-193 | With unique ids, an edit changes the text of the one message with that id and nothing else |
| Messages.MessageReact | src/message.ts:323-391 | Token 403. Then 400 for each of: unknown id, react id other than 1, non-member, already reacted. A missing react slot is 500. Success appends the caller to the slot and notifies a member sender |
| Messages.MessageUnreact | src/message.ts:404-453 | The same errors as react, with not-reacted instead of already-reacted. Success removes the caller's entry and clears the flag |
| Messages.ReactThenUnreact | src/message.ts:323-453 | React then unreact by the same user succeeds, and the slot's user list is restored |
| Messages.PinAllowed | src/message.ts:570-590 | An owner of the container may pin, and so may a global owner for a channel message. A channel caller without a record is 500 |
| Messages.MessagePin | src/message.ts:543-594 | Token 403, unknown id 400, non-member 400, already pinned 400, not permitted 403. Only `isPinned` becomes true |
| Messages.MessageUnpin | src/message.ts:604-655 | The same errors, with not pinned as the 400. Only `isPinned` becomes false |
| Messages.PinThenUnpin | src/message.ts:543-655 | Pinning and then unpinning gives back the store |
| Messages.MessageShare | src/message.ts:468-531 | Errors come in the order: neither id -1 400, unknown target 400, not in target 403, unknown message 400, not in source 400, extra over 1000 400. Then the send runs with body original + " " + extra |
| Messages.ShareIntoDmBody | src/message.ts:472-528 | A share into a DM stores the original text, a space and the extra text as that DM's newest message |
| Messages.MessageSendLater | src/message.ts:668-715 | Errors come in the order: past time 400, token 403, channel position 400, length 400, non-member 403. The answer is the next message id |
| Messages.MessageSendLaterDm | src/message.ts:728-773 | Errors come in the order: token 403, length 400, past time 400, unknown DM 400, position missing 500, non-member 400. The answer is the next message id |
| Messages.SendLaterKeepsPromise | src/message.ts:695-712 | On an unchanged store, the delayed channel send yields exactly the id promised |
| Messages.SendLaterDmKeepsPromise | src/message.ts:749-771 | On an unchanged store, the delayed DM send yields exactly the id promised |
| ChannelOps.ChannelMessages | src/channel.ts:36-95 | Token 403, unknown channel 400, non-member 403. An empty channel at start 0 gives an empty page, and otherwise a start outside [0, count) is 400 |
| ChannelOps.ChannelMessagesIsPage | src/channel.ts:67-94 | A listing is the newest-first page at that start, and the store keeps the marked react flags |
| ChannelOps.ChannelMessagesNextPage | src/channel.ts:67-94 | Asking again from `end` succeeds and continues the listing without gap or overlap |
| ChannelOps.ChannelJoin | src/channel.ts:114-157 | Token 403, unknown channel 400, already a member 400, private without global ownership 403. Success appends the caller to the members and adds a channel sample of +1 |
| ChannelOps.ChannelInvite | src/channel.ts:180-230 | Token 403, unknown channel or invitee 400, inviter not a member 403, invitee already a member 400. The invitee is appended and notified, and only the invitee's statistics move |
| ChannelOps.InviteAddsMember | src/channel.ts:189-225 | After an invite the channel is found at the same place and now lists the invitee, who was not listed before. The caller's token still names them, and only the invitee's channel count moves, by +1 |
| ChannelOps.ChannelLeave | src/channel.ts:368-408 | Unknown channel 400 (before the token), token 403, non-member 403, creator of the running standup 400. The caller leaves the members and owners, and gets a sample of -1 |
| ChannelOps.JoinThenLeave | src/channel.ts:372-403 | Join then leave gives every channel back, and restores the caller's channel count |
| ChannelOps.ChannelAddOwner | src/channel.ts:319-351 | Unknown channel or user 400, non-member 400, already an owner 400, then token 403, caller neither user 0 nor an owner 403. The user is appended to the owners |
| ChannelOps.ChannelRemoveOwner | src/channel.ts:425-468 | The user must be a member and an owner but not the only owner (400), then token 403 and owner caller 403. Only that user leaves the owners |
| ChannelOps.AddThenRemoveOwner | src/channel.ts:319-468 | An owner adding and then removing an owner gets the store back |
| ChannelOps.RemoveOwnerKeepsMembers | src/channel.ts:449-463 | The removed owner stays a member, and every other owner stays an owner |
| Channels.ChannelsCreate | src/channels.ts:56-106 | Token 403, name outside 1..20 400. The channel is appended with id = the number of channels, the creator as sole owner and member, no messages and the default standup. Only the creator's channel count grows, by 1 |
| Channels.CreateKeepsPositions | src/channels.ts:83 | Channel ids stay equal to positions, and the new id finds the new channel |
| Channels.CreateKeepsIdsUnique | src/channels.ts:69-92 | A new channel keeps message ids unique |
| Channels.ListEntries | src/channels.ts:25-36 | An entry is listed exactly when the caller is among that channel's members |
| Channels.ListEntriesOnce | src/channels.ts:25-36 | With no repeated members, the listing is each of the caller's channels once, in storage order |
| Channels.ChannelsList | src/channels.ts:15-41 | Token 403. Otherwise exactly the caller's channels |
| Channels.ChannelsListAll | src/channels.ts:119-140 | Token 403. Otherwise every channel's id and name, in storage order |
| Channels.ListWithinListAll | src/channels.ts:25-36 | Every entry of the caller's listing appears in the full listing |
| Channels.CreateThenListed | src/channels.ts:56-106 | The creator's listing names the new channel |
| Auth.Keep | src/auth.ts:57-64 | Keeps exactly the lowercase letters and digits, and changes nothing already in that alphabet. A single character is kept iff it is in the alphabet |
| Auth.KeepAppend | src/auth.ts:57-64 | Filtering distributes over concatenation, so the kept characters are those of the input, in their order |
| Auth.HandleGenerator | src/auth.ts:56-65 | The handle uses only [a-z0-9]. It is the prefix of the filtered, lower-cased full name whose length is that name's length capped at 20 |
| Auth.NormalizeIdempotent | src/auth.ts:57-64 | Applying the handle transformation again changes nothing |
| Auth.GeneratorKeepsPlainNames | src/auth.ts:56-65 | A lowercase alphanumeric name of at most 20 characters is its own handle |
| Auth.AsWrittenHandle | src/auth.ts:107-117 | With k handles containing h, the handle is h when k = 0 and otherwise h followed by k-1 |
| Auth.AsWrittenHandleRepeats | src/auth.ts:107-117 | The as-written rule can hand out a handle that is already taken |
| Auth.UniqueHandle | src/auth.ts:107-117 | The handle is never taken. It is h when h is free, and otherwise h plus the least number that makes it free |
| Auth.HandleRulesAgreeWhenUnrelated | src/auth.ts:107-117 | When no existing handle contains h, both rules give h |
| Auth.NextUserId | src/auth.ts:119-129 | 0 for the first user, otherwise larger than every existing id and either 0 or one more than an existing id: the largest id plus one |
| Auth.AuthRegister | src/auth.ts:79-184 | All errors are 400, in the order: invalid email, email taken, password < 6, names outside 1..50. The user gets the next id, permission 1 iff id 0, the handle of the as-written suffix rule and the default photo. Also a session and seeded statistics |
| Auth.RegisterKeepsIdsUnique | src/auth.ts:119-138 | Registration keeps user ids unique, and the new id finds the new record |
| Auth.RegisterRepeatsHandle | src/auth.ts:107-138 | With stored handles "ab1" and "ab0", registering "a" "b" stores a second "ab1", so handles stop being unique |
| Auth.AuthRegisterIntended | src/auth.ts:107-138 | The corrected handler: the same outcome, id and record as registration, except that the handle is the least free one, which no one holds |
| Auth.IntendedRegisterKeepsUnique | src/auth.ts:107-138 | The corrected handler keeps both user ids and handles unique, and the new id finds the new record |
| Auth.RegisterThenProfile | src/users.ts:31-58 | Right after registering, the new session's profile query for the new id returns the registered email, names, handle and default photo, with global owner exactly for id 0 |
| Auth.RegisterSeedsStats | src/auth.ts:140-162 | The new user's series are one zero sample each, and the new session names the new user |
| Auth.DropKey | src/auth.ts:198-206 | Removes exactly the sessions with that key, and changes nothing when there is none |
| Auth.DropKeyKeepsOthers | src/auth.ts:198-206 | Other keys name the same user after the drop |
| Auth.AuthLogout | src/auth.ts:194-209 | Succeeds iff the token is valid (else 403), and the token is invalid afterwards |
| Auth.LogoutKeepsOtherSessions | src/auth.ts:198-206 | Logging out leaves every other session valid, naming the same user |
| Admin.ActingUser | src/admin.ts:30-42 | The caller is the owner of a session with the key after which no session has the key, that is, of the last one; there is none when no session has the key |
| Admin.AdminPermissionChange | src/admin.ts:15-66 | Errors come in the order: token 403, unknown user 400, permission not 1 or 2 400, caller not a global owner 403, already at that level 400, target a global owner 400. Success sets the target's permission |
| Admin.PermissionChangeOutcome | src/admin.ts:43-58 | With unique ids and an authorised caller, a change succeeds exactly when the target is neither at the level nor a global owner. Global owners are never demoted |
| Admin.PermissionChangeApplies | src/admin.ts:59-63 | The target holds the requested level and no other record changes |
| Admin.SpliceAll | src/admin.ts:124-146 | The for-in splice loop as written: a value directly after a removed one survives |
| Admin.SpliceAllLeavesPair | src/admin.ts:124-146 | On the list [v, v] the loop leaves [v] |
| Admin.CreatorListedTwice | src/admin.ts:147-169 | A DM whose creator also lists themselves keeps the creator after the loop |
| Admin.SpliceAllIsWithout | src/admin.ts:124-169 | Without adjacent repeats, the loop equals removing every occurrence |
| Admin.AdminUserRemove | src/admin.ts:77-181 | Errors come in the order: token 403, unknown user 400, only global owner 400, caller not a global owner 403. Past the first three checks it fails exactly when the acting user is not a global owner, and otherwise succeeds. Then the record is tombstoned, every owner and member list goes through the for-in splice loop, their messages are scrubbed, and their last session is dropped |
| Admin.SpliceAllKeepsOthers | src/admin.ts:124-146 | The splice loop removes only copies of the value: filtering out the value afterwards gives the same list as before |
| Admin.RemoveKeepsOthersListed | src/admin.ts:124-169 | As written, the user keeps a tombstoned record, and every list holds the same other members in the same order |
| Admin.RemoveLeavesRepeatedMember | src/admin.ts:147-169 | A DM listing the user twice in a row keeps one copy as written, and none under the corrected removal |
| Admin.AdminUserRemoveIntended | src/admin.ts:77-181 | The corrected handler: the same errors and the same users, sessions and statistics, with every owner and member list filtered of all copies of the user |
| Admin.RemoveAgreesWithoutPairs | src/admin.ts:124-169 | When no list holds the user twice in a row, the handler as written and the corrected one give the same store |
| Admin.RemovedUserIsGone | src/admin.ts:116-169 | With the corrected list removal, the user is in no owner or member list, yet keeps a record, with an empty handle |
| Admin.RemoveScrubsOnlyTheirMessages | src/admin.ts:124-169 | Every message stays where it was. Exactly the removed user's messages read "Removed user" |
| Admin.RemoveKeepsIdsUnique | src/admin.ts:124-169 | Message ids are untouched, so uniqueness is kept |
| Admin.RemoveKeepsOtherSessions | src/admin.ts:170-176 | Sessions with keys other than the removed user's are unaffected |
| Other.Clear | src/other.ts:16-48 | The result is the initial store |
| Other.ClearStartsOver | src/other.ts:17-30 | After a reset no session is valid, the next message id is 0, and the first registration gets id 0 as global owner |
| Other.FilterMatches | src/other.ts:72-84 | Keeps exactly the messages whose lower-cased text contains the lower-cased query |
| Other.SearchLoop | src/other.ts:72-84 | A message is returned exactly when it matches and sits in one of the lists |
| Other.SearchLoopIsFilter | src/other.ts:72-84 | The loops equal filtering the concatenated history, so storage order is kept: channels, then DMs |
| Other.Search | src/other.ts:62-85 | Token 403, query length outside 1..1000 400. Otherwise exactly the matching messages anywhere in the workspace, with no membership check |
| Other.SearchIgnoresCase | src/other.ts:72-84 | Searching for a query and for its lower-cased form gives the same result |
| Other.NotificationsGet | src/other.ts:96-104 | Token 403, no record 500. Otherwise the first min(20, n) notifications |
| Other.NotifyThenNewestFirst | src/other.ts:100-103 | A notification just added is read back first, followed by the 19 newest earlier ones |

## Left out

- Hashing of session tokens and passwords, and uuid generation: a session is an opaque key. The password is stored as given.
- authLogin and the password-reset pair (email, uuid reset codes), and userProfileUploadPhoto (HTTP fetch, image cropping, files): foreign calls.
- channelDetails: not part of the modelled handler set. DmDetails is modelled.
- HTTP routing and persistence of the store to a JSON file.
- Timers: a standup's flush and the delayed sends are explicit transitions, called with the time they fire. Any store can be in place when they fire: the flush looks the channel up again by id. The model returns `Crashed` where the timer callback throws; what it does not model is that the server process then stops, since no handler for uncaught exceptions is installed (src/server.ts handles only SIGINT). The same holds for a delayed send whose send throws when it fires.
- `@handle` tag detection, and the notifications it produces for messages and edits (regular expressions). The invite, DM-creation and react notifications are modelled as prepends.
- Dms.MessageSendDm: the tag branch (src/dm.ts:347-364) runs before the message is stored and reads `data.dms[dmId]` by position. When the text tags the handle of any user and no DM sits at position dmId (for example DMs 0 and 1 exist and DM 0 was removed), the source throws (500) and stores nothing. The model omits the tag branch, so it stores the message and returns its id. A message that tags no user's handle, or a DM whose id is its position, behaves the same in both. The shares and delayed sends into a DM go through the same send.
- `localeCompare` is modelled as character-code order, and `toLowerCase` as ASCII lower-casing.
- Strings are sequences of Unicode scalar values. Every length bound counts UTF-16 code units, as JavaScript's `.length` does (`Base.Utf16Len`). Lone surrogate halves, which a JavaScript string can hold, are not represented.
- `isEmail` is a parameter predicate.
- The default profile photo URL is modelled without its server-address prefix.
- Involvement and utilization are exact rationals (`real`), not IEEE doubles.
- Statistics are a map from user id to record. The source's array filter and re-push, including the duplicate push in src/channels.ts:100, only reorder or duplicate entries of that array.
- When a handler throws after writing part of the store, the model returns the error and discards the partial write.
- Messages.MessageEdit: the permission check uses the first message carrying the id, in channel order and then DM order. The source's lookup loops keep the last match. The two agree whenever message ids are unique, which every lemma about edits assumes.
- Messages.MessageRemove: the same first-match permission lookup as MessageEdit. The removal loops themselves are modelled as written.
- Other.Clear: the deletion of uploaded photo files is not modelled.
- Pages.PageOf: the react flags written into stored messages are modelled; whether the caller's view shares objects with the store is not.
- Ledger.UserStatsOp and Ledger.UsersStatsOp: the denominator (only the last container's message count) and the utilization loops (skipping one user's DMs) are modelled as the code computes them. The utilization the statistics describe is `Ledger.UsersStatsIntended` (see Findings).
- Ledger.UsersStatsOp: with no user records the model stores utilization 0, where JavaScript's 0 / 0 gives NaN. A valid session normally implies a user record.
- Standups.StandupFlush: a non-empty buffer with no finish time is modelled as `Crashed`, where the source would post a message with a null time. A well-formed store never holds such a standup (`Standups.FlushOfWellFormedSucceeds`).

## Findings

The handlers `Auth.AuthRegister`, `Admin.AdminUserRemove` and `Ledger.UsersStatsOp` model the code as written. Each corrected member is a separate handler with the same errors, and the lemmas in the last column are proved about it.

| source | as written | input that shows it | evidently intended | confidence | as-written member | corrected member |
|---|---|---|---|---|---|---|
| src/auth.ts:107-117 | The new handle is h followed by k-1, where k counts existing handles that contain h as a substring | Existing handles "ab1" and "ab0", new user generating "ab": k = 2, so "ab1", which is already taken | Handles are unique: append the least number that gives a free handle | not executed | Auth.RegisterRepeatsHandle | Auth.IntendedRegisterKeepsUnique |
| src/admin.ts:124-169 | Removing the user from owner and member lists uses `for (i in xs) if (xs[i] === uId) xs.splice(i, 1)`, which skips the element after each splice | A DM created by u with uIds [u] has members [u, u]; the loop leaves [u] | The removed user appears in no list: filter out every occurrence | not executed | Admin.RemoveLeavesRepeatedMember | Admin.RemovedUserIsGone |
| src/users.ts:332-355 | The utilization counts membership entries, not users: every channel entry of every user, plus the DM entries of users other than the last channel user | One user, a member of two channels and of no DM: 2 / 1 = 2.0 | The share of users who belong to some channel or DM, in [0, 1] | not executed | Ledger.UtilizationCanExceedOne | Ledger.UsersStatsIntended |
