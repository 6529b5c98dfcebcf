# A verified model of the group-chat protocols

This project models five protocols of the chat application and two smaller state machines beside
them, and proves what each keeps over every run:

- **Refresh-token rotation with reuse detection**, on the server (`TokenTable`, `TokenService`,
  `RotationCalls`), in one browser tab (`TabSession`, `TabRequests`, `ApiClient`), and the two together
  (`SessionWorld`, `SessionReuse`).
- **The socket-fed client cache**: messages (`MessageTable`, `MessagesService`, `MessageCache`,
  `MissedEvents`, `MessageView`) and group members (`MemberCache`, `MissedMembers`, `MemberView`).
- **Keyset pagination** over a table that changes during the walk (`Keyset`, `Pagination`), and the
  cursor text it hands out (`Cursor`, on top of `Base64Url`, `Utf16`, `JsonString`, `IsoInstant` and
  `Decimal`).
- **Group ownership and membership** (`GroupTable`, `GroupsService`).
- **The summary pipeline**: its job tree (`SummaryQueue`), its flows and their runs (`SummaryFlow`,
  `SummaryRuns`), its processors and scheduler (`SummaryWorkers`, `Windows`).
- **The reaction toggle** statement by statement (`Reactions`, `ReactionsService`), the chips drawn
  from the reaction rows (`ReactionChips`), and the **typing indicator** (`TypingReceiver`,
  `TypingSender`).

`dafny verify dfyconfig.toml` checks everything.

## How to read the model

- The database is a value holding tables. One Prisma statement, or one `$transaction`, is one atomic
  step; between two `await`s anything else may run. This is an assumption: Postgres' default
  isolation is weaker.
- Each protocol has a state, a type of actions, `Step`/`Apply`/`Next` for one action and `Run` for a
  sequence of them. A theorem over every run quantifies over the sequence of actions, so over every
  interleaving, loss and delay. Code that updates objects is a class beside the machine; its methods
  are proved to do what the machine's step does, and take the writes of other requests at their awaits
  as arguments (`Interference`, `Serve`, `Others`).
- The deletion of a group by its last member runs beside every protocol about messages. The message
  table is `MessageTable.Table`: the rows ever inserted, less those of deleted groups. Every query reads
  it; the deleted rows are kept only to speak of what a client still shows.
- History variables record what the program does not store and no step reads: `lineage`
  (`TokenTable`), `held` and `orphans` (`TabSession`), `mine` and `callOf` (`SessionWorld`), `first` and
  `readings` (`MessageView`), `base` and `reading` (`MemberView`), `ran`, `cleared`, `stored` and `sent`
  (`SummaryFlow`).
- Row ids and raw tokens are numbers and a raw token stands for its hash and its row; uuids and random
  tokens are fresh values. Ids of version 7 are compared as the database compares them. Group ids come
  from a counter, so that a deleted group's id does not return.
- Socket events reach a client in the order in which the requests committed, each arbitrarily late.
- Timestamps are whole milliseconds. Clocks, ids the database would give, the model's text, the
  outcomes of network calls and the rows a query with an unspecified order returns are arguments. A
  timer that is due runs before the clock moves on.

Eight claims of the code and its documentation fail on some runs. Each is given its exact condition and a
run that fails:

- "A refresh token is posted once." A 401 posts a token again if and only if the page was reloaded while
  the token's refresh was pending (`TabSession.PostedAgainIffOrphan`, `SessionWorld.PostedAgainIffOrphan`;
  `TabSession.ReloadPostsTwice`).
- "A tab never burns its own family." While nobody else presents the tab's tokens, a refresh of the tab
  turns to a reuse branch if and only if, by its lookup or claim, its token has been exchanged or its
  family burned, or a purge took its row between the two (`SessionReuse.ReuseIffSpentBurnedOrOvertaken`).
  Every such turn goes back to a served logout of the family, to such a purge, or to a token posted again
  after a reload (`ReuseMeansLogoutPurgeOrReload`). If no purge runs more than the grace period after a
  rotation still under way looked its row up, and no token is posted twice, it is the logout alone
  (`ReuseIffLogoutServed`), and without a logout the claim holds (`TabNeverBurnsItsOwnFamily`). All three
  ways to fail are run (`LogoutMakesARefreshLookReused`, `LatePurgeMakesARefreshLookReused`,
  `ReloadMakesARefreshLookReused`).
- "A tombstone's text is never resurrected." An edit does so if and only if it passed its check and a soft
  delete of the message was served before its update, with the group still there
  (`MessagesService.EditRevivesIff`; `EditRevivesATombstone`).
- "A walk of the history misses nothing." A finished walk contains a row that was there when it began if
  and only if the group stood at its last fetch or the row is at or above that fetch's cursor: past
  `GroupMemberGuard`, `findPage` answers for a deleted group with an empty last page
  (`Pagination.WalkMissesIffDeleted`; `DeletionCutsTheWalk`).
- "The message view converges." In every run a message on screen ends as the table's row if and only if
  the group stands, and its copy is live, or its page was installed before any younger event was
  delivered, or the events missed in between are harmless to it: a later update replaces the row, or they
  changed no more than its reactions and those are sent again, or they changed nothing
  (`MessageView.ViewIsExact`, `MissedEvents.MissedIffHarmless`). With timely installs it is the group alone
  (`ViewConverges`). Both ways to fail are run (`UntimelyInstallLosesAnEdit`, `DeletionLeavesTheView`).
- "The cached member list converges." In every run, if and only if the group stands and what each user's
  row missed before it was installed is harmless: the user leaves later, or was absent and still is, or
  only fields that are written again differ, or the user returns with an equal row; or the group is gone
  and everyone listed has been heard to leave (`MemberView.MembersAreExact`,
  `MissedMembers.MissedIffHarmless`). With timely installs it is the group alone (`MembersConverge`). Both
  ways to fail are run (`UntimelyInstallLosesAJoin`, `DeletionLeavesTheList`).
- "The row broadcast is the row stored." It is still in the table, with at most its reactions changed, if
  and only if its group has not been deleted since (`SummaryRuns.BroadcastsAreStored`;
  `PublishOutlivesTheGroup`).
- "Typing emissions alternate." If and only if no `stopTyping` without a socket is followed by another
  start (`TypingSender.EmissionsAlternate`; `StopWithoutASocketIsLost`).

## Model

| member | source | states |
|---|---|---|
| TokenTable.ApplyKeepsValid | backend/src/auth/token.service.ts:116-151 | every single statement on the table keeps a family at one unrevoked row at most, and that row its newest |
| TokenTable.FamilyHasAtMostOneLiveToken | backend/src/auth/token.service.ts:68-205 | over every interleaving from an empty table, two unrevoked rows of one family are the same row, the last one issued |
| TokenTable.DeadFamilyStaysDead | backend/src/auth/token.service.ts:199-205 | a family with no unrevoked row never has one again |
| TokenTable.RowIsRetained | backend/src/auth/refresh-token-purge.service.ts:43-62 | purges at any moments leave every row in the table, with its revocation, until its expiry plus the grace period |
| TokenTable.NewRowsLiveTheirTtl | backend/src/auth/token.service.ts:133-140 | a token that a statement puts into the table is unrevoked, expires the lifetime after that statement, and belongs to the user it was issued to or to the user and family of the token it replaces |
| TokenTable.OldRowsAreRevokedOrPurged | backend/src/auth/token.service.ts:120-205 | a row changes only by its revocation, stamped with the clock, when it is claimed or its family revoked, and goes only in a purge past its expiry plus the grace period |
| TokenTable.RowsExpireAfterTheirTtl | backend/src/auth/token.service.ts:133-140 | in every run from an empty table each row expires the lifetime after the moment it was inserted, whatever replaced what |
| TokenService.Database.ClaimAndReissue | backend/src/auth/token.service.ts:120-142 | the transaction either revokes the claimed row now and inserts its successor, which lives the full lifetime from now, or finds it revoked and changes nothing |
| TokenService.Database.RevokeAll | backend/src/auth/token.service.ts:199-205 | exactly the family's unrevoked rows are revoked |
| TokenService.PurgeService.PurgeExpired | backend/src/auth/refresh-token-purge.service.ts:43-62 | exactly the rows more than the grace period past expiry go, revoked or not, and their number is returned |
| TokenService.Service.IssueForNewSession | backend/src/auth/token.service.ts:68-75 | a new family whose only token is the one returned, unrevoked and expiring the lifetime from now, beside an access token for the same user |
| TokenService.Service.Rotate | backend/src/auth/token.service.ts:81-159 | with other requests at every await: which of the four outcomes comes when, what each leaves of the table, that a pair is for the user of the row presented and expires the lifetime after its claim, and that after a reuse the family has no unrevoked row |
| TokenService.Service.RevokeByToken | backend/src/auth/token.service.ts:165-173 | logout ends the whole family of a known token and does nothing else; it ignores an unknown one |
| TokenService.ClaimReplacesTheLiveToken | backend/src/auth/token.service.ts:120-142 | after a won claim the family's one unrevoked row is the replacement |
| RotationCalls.NextKeepsSysValid | backend/src/auth/token.service.ts:81-205 | each step of any of N concurrent calls keeps the invariant that ties every returned pair to the chain of its family |
| RotationCalls.OneWinner | backend/src/auth/token.service.ts:81-159 | of any number of concurrent rotations of one token at most one returns a pair |
| RotationCalls.FamilyIsOneChain | backend/src/auth/token.service.ts:120-142 | every token of a family after the first was returned by exactly one call, which presented its predecessor, and every token but the last is spent |
| RotationCalls.DeadFamilyIssuesNothing | backend/src/auth/token.service.ts:116-151 | a burn or logout holds against rotations already past their checks: the dead family issues nothing more |
| RotationCalls.ReuseKillsTheFamily | backend/src/auth/token.service.ts:95-151 | once a call answered reuse, every token of the family, the winner's replacement included, is dead from then on |
| RotationCalls.ReplayIsDetected | backend/src/auth/token.service.ts:95-101 | a spent token presented by its expiry plus grace, after any purges, is answered with reuse and leaves no unrevoked row |
| RotationCalls.RevocationHasACause | backend/src/auth/token.service.ts:81-205 | a row is only ever revoked by the rotation that exchanged it, or by a burn or logout of its whole family |
| RotationCalls.RotationEnds | backend/src/auth/token.service.ts:81-159 | which of the outcomes a call reaches, by the table at its lookup and at its claim |
| TabSession.NextKeepsValid | frontend/src/lib/api/client.ts:63-122 | each turn of the event loop keeps single flight, the retry flag and the token store consistent |
| TabSession.EachTokenIsPostedAtMostOnce | frontend/src/lib/api/client.ts:58-90 | in every run of one tab, opened with stored tokens or without and reloaded at any time, no refresh token is posted twice but one whose refresh was pending at a reload, one refresh is pending at most, and a request is sent at most twice |
| TabSession.PostedAgainIffOrphan | frontend/src/lib/api/client.ts:58-105 | at every moment of every run a 401 posts a token that was posted before if and only if its refresh was pending at a reload |
| TabSession.ReloadPostsTwice | frontend/src/lib/api/client.ts:58-72 | a run that posts one token twice |
| TabRequests.LastDeliveryIsStored | frontend/src/lib/api/session.ts:43-53 | in every run the store holds the tokens of the last sign-in or answered refresh, or none if a sign-out or failed refresh came after |
| TabRequests.FlightsResolveToTheirAnswer | frontend/src/lib/api/client.ts:74-90 | in every run each refresh has resolved to what it was answered: the access token of a pair, or null for a failure |
| TabRequests.SlotIsTheLastFlight | frontend/src/lib/api/client.ts:65-72 | in every run the slot holds the last flight started until it has settled or the page is reloaded, so that the next 401 starts another |
| TabRequests.OrphansAreReloaded | frontend/src/lib/api/client.ts:58-72 | the tokens that may be posted again are those whose refresh was pending at a reload, told by the turns |
| TabRequests.WaitingEndsAsAnswered | frontend/src/lib/api/client.ts:103-120 | a waiting request whose refresh was answered with a pair goes out once more under the newest access token and announces no logout; one whose refresh failed is rejected and announces one |
| TabRequests.SentEndsAsAnswered | frontend/src/lib/api/client.ts:47-105 | a request carries the access token stored when it is sent; a response other than a 401 settles it; a 401 rejects it if it is its second or nothing is stored, and else it waits |
| TabRequests.OverIsFinal | frontend/src/lib/api/client.ts:94-122 | a request that is fulfilled or rejected is never sent again |
| TabRequests.LogoutsAreDeadSessions | frontend/src/lib/api/client.ts:113-118 | in every run one logout is announced for each request resumed after a failed refresh, and none for anything else |
| ApiClient.TokenStore.Set | frontend/src/lib/api/session.ts:43-47 | both entries hold the new pair |
| ApiClient.TokenStore.Clear | frontend/src/lib/api/session.ts:49-53 | both entries are gone |
| ApiClient.Client.OnAnswer | frontend/src/lib/api/client.ts:94-121 | any response but a 401 settles its request and changes nothing else |
| ApiClient.Client.RefreshAccessToken | frontend/src/lib/api/client.ts:65-72 | joins the flight under way or starts the only one |
| ApiClient.Client.OnUnauthorized | frontend/src/lib/api/client.ts:94-105 | a first 401 with a stored token marks the request and awaits a flight; any other is rejected |
| ApiClient.Client.OnRefreshAnswered | frontend/src/lib/api/client.ts:79-84 | the answered pair is stored and the flight resolves to its access token |
| ApiClient.Client.OnRefreshFailed | frontend/src/lib/api/client.ts:85-89 | any failure clears the store and resolves the flight to null |
| ApiClient.Client.OnSettled | frontend/src/lib/api/client.ts:67-69 | a settled flight empties the slot |
| ApiClient.Client.Resume | frontend/src/lib/api/client.ts:105-120 | a token sends the request again once, under the store's access token if it has one; null rejects it and dispatches one logout event |
| ApiClient.Client.OnSignedIn | frontend/src/lib/api/auth.ts:13-41 | signing in stores the answered pair |
| ApiClient.Client.OnSignedOut | frontend/src/lib/api/auth.ts:48-57 | the store is cleared whatever the server said |
| ApiClient.Client.Reloaded | frontend/src/lib/api/client.ts:58-72 | a new instance of the module has an empty slot and no requests over the same stored tokens |
| SessionWorld.NoTokenIsEverPostedTwice | frontend/src/lib/api/client.ts:58-90 | tab and server together: under lost and late replies, logouts, logins, strangers and reloads, no refresh token is posted twice but one whose refresh was pending at a reload |
| SessionWorld.PostedAgainIffOrphan | frontend/src/lib/api/client.ts:58-105 | with the server in the loop, the exact condition for a token to be posted again |
| SessionWorld.ReplyIsDelivered | frontend/src/lib/api/client.ts:79-84 | the pair of a served refresh ends in the store and resolves its flight |
| SessionReuse.ReuseIffSpentBurnedOrOvertaken | backend/src/auth/token.service.ts:81-151 | in every run where nobody else presents the tab's tokens, the exact condition for a refresh of the tab to turn to a reuse branch: its token exchanged or its family burned by its lookup or claim, or its row purged before its claim; and another exchanged its token only after a reload during its refresh |
| SessionReuse.ReuseMeansLogoutPurgeOrReload | backend/src/auth/token.service.ts:95-151 | in every such run a rotation of the tab's family is in a reuse branch only if a logout of the family was served, a purge overtook one of its rotations, or a token of it was posted again after a reload |
| SessionReuse.ReuseIffLogoutServed | backend/src/auth/token.service.ts:95-173 | if no purge runs more than the grace period after a rotation under way looked its row up, and no token of the family was posted twice, a refresh turns to reuse if and only if a logout of its family has been served before its lookup or claim |
| SessionReuse.TabNeverBurnsItsOwnFamily | frontend/src/lib/api/client.ts:63-122 | without a logout or a second post, and with such purges, no call ever reaches a reuse branch for a family of the tab, and only its own rotations spend its tokens |
| SessionReuse.LogoutMakesARefreshLookReused | frontend/src/lib/api/auth.ts:48-57 | a run in which a logout served before the tab's own refresh makes that refresh answer reuse |
| SessionReuse.LatePurgeMakesARefreshLookReused | backend/src/auth/refresh-token-purge.service.ts:43-62 | a run without a logout in which a purge between a refresh's lookup and its claim makes it answer reuse |
| SessionReuse.ReloadMakesARefreshLookReused | frontend/src/lib/api/client.ts:58-72 | a run without logout or purge in which a reload during a refresh makes the next refresh answer reuse |
| Keyset.NewestFirst | backend/src/messages/messages.service.ts:205-245 | the rows of an order by createdAt and id descending: the same keys, strictly descending |
| MessageTable.ApplyKeepsFaithful | backend/src/messages/messages.service.ts:82-167 | every write keeps each row equal to the replay of the event log, with events in order; deleting a group takes its rows from the table and emits nothing |
| MessageTable.LastLeaveDeletes | backend/src/groups/groups.service.ts:204-213 | the leave of a group's last member, in the model of the groups, is the deletion in the model of the messages: the same messages go, and neither log grows |
| MessageTable.ReplayTwiceIsReplayOnce | frontend/src/lib/socket/socket-provider.tsx:137-168 | replaying a stretch of events over a row that is already their result changes nothing |
| MessageTable.SeenEventsChangeNothing | frontend/src/lib/socket/socket-provider.tsx:137-168 | the same for a stretch that reaches back before the row's creation |
| MissedEvents.MissedIffHarmless | frontend/src/lib/socket/socket-provider.tsx:137-168 | a copy that never hears a stretch of events ends as one that did, if and only if the row is replaced later, or the stretch changed at most its reactions and those are sent again |
| MessagesService.Service.PersistAndEmit | backend/src/messages/messages.service.ts:147-167 | the row is inserted and announced with the same content, unless the group is gone; then neither happens |
| MessagesService.Service.CreateWithAttachment | backend/src/messages/messages.service.ts:63-79 | a message with an attachment goes through the same insert and announcement |
| MessagesService.Service.AssertOwnUserMessage | backend/src/messages/messages.service.ts:128-144 | which of not found, not own and own it answers, and nothing changes |
| MessagesService.Service.Edit | backend/src/messages/messages.service.ts:82-109 | with other requests between check and update: which outcome comes when, and the whole new state; a failed edit changes nothing and tells nobody; a tombstone found by the check is refused |
| MessagesService.Service.SoftDelete | backend/src/messages/messages.service.ts:112-125 | with other requests between check and update: the row stays with blank text and its reactions and is announced as an update, or nothing changes |
| MessagesService.SoftDeleteIsExact | backend/src/messages/messages.service.ts:112-144 | a soft delete succeeds exactly when the row was the caller's own USER message and its group still stands; it blanks the text and keeps the rest |
| MessagesService.EditRevivesIff | backend/src/messages/messages.service.ts:82-109 | an edit gives a tombstone text if and only if it passed its check and a soft delete of the message, and no deletion of the group, was served before its update |
| MessagesService.EditRevivesATombstone | backend/src/messages/messages.service.ts:82-109 | a run in which an edit resurrects deleted text |
| MessagesService.PageIsAPrefix | backend/src/messages/messages.service.ts:205-245 | the rows of a page are the first `limit` of the whole ordered result |
| MessagesService.PageIsOrdered | backend/src/messages/messages.service.ts:205-245 | a page is strictly descending, names its limit and has a cursor exactly when rows are left below |
| MessagesService.PageIsExact | backend/src/messages/messages.service.ts:205-245 | a page holds exactly the rows of the group below the given cursor and at or above its own |
| Pagination.WalkIsStrictlyDescending | backend/src/messages/messages.service.ts:205-245 | whatever happens between fetches, the rows collected are strictly descending, so none comes twice |
| Pagination.WalkMissesIffDeleted | backend/src/messages/messages.service.ts:205-245 | a finished walk contains a row present when it began if and only if the group stood at its last fetch or the row is at or above the cursor of that fetch |
| Pagination.WalkMissesNothing | backend/src/messages/messages.service.ts:205-245 | a finished walk whose last fetch found the group standing contains every row present when it began |
| Pagination.DeletionCutsTheWalk | backend/src/groups/groups.service.ts:204-213 | a walk of two fetches that misses every row below its first page |
| Pagination.WalkLength | backend/src/messages/messages.service.ts:205-245 | if inserts are newer than the cursor the walk ends within max(1, ceil(n / limit)) fetches, and after exactly so many if the group stood at the last |
| Pagination.PageCountIsCeiling | backend/src/messages/messages.service.ts:205-245 | the count of fetches is that ceiling |
| MessageCache.SocketProvider.OnNewMessage | frontend/src/lib/socket/socket-provider.tsx:61-67 | the message joins its group's live buffer unless its id is there |
| MessageCache.SocketProvider.OnMessageUpdated | frontend/src/lib/socket/socket-provider.tsx:155-168 | every cached copy of the message is replaced, live or in a page |
| MessageCache.SocketProvider.OnReactionUpdated | frontend/src/lib/socket/socket-provider.tsx:137-152 | every cached copy takes the new reaction set |
| MessageCache.SocketProvider.OnPageFetched | frontend/src/lib/queries/messages.ts:32-39 | a fetched page joins its group's history at the end and changes no other group |
| MessageCache.HeardTwiceIsHeardOnce | frontend/src/lib/socket/socket-provider.tsx:61-67 | an event heard twice has the effect of one, and no message enters the live buffer twice |
| MessageCache.MergeMessages | frontend/src/lib/queries/messages.ts:50-60 | the list shown has each cached id once, the live copy over the page's, ascending by (createdAt, id) |
| MessageView.SnapshotCatchesUp | frontend/src/lib/socket/socket-provider.tsx:137-168 | a row read at log position n and patched from any k up to n again still ends as the server's row |
| MessageView.StepKeepsGood | frontend/src/lib/queries/messages.ts:31-60 | each request, delivery, fetch and install keeps live copies on course, page copies equal to what they heard since they were read, and the loaded range complete |
| MessageView.InstallIsExact | frontend/src/lib/queries/messages.ts:31-39 | a row of a page, however late installed, ends as the server's last version of it if and only if what was delivered since it was read is harmless to it |
| MessageView.HistoryIsLoadedOnce | frontend/src/lib/queries/messages.ts:31-39 | in every run the history pages are read newest first, twenty at a time, and no message is loaded twice |
| MessageView.EveryCopyIsExact | frontend/src/lib/socket/socket-provider.tsx:137-168 | at every moment of every run, the events under way turn a message shown into the table's row if and only if the group stands and its copy holds |
| MessageView.EveryCopyCatchesUp | frontend/src/lib/socket/socket-provider.tsx:137-168 | with timely installs they do if and only if the group stands |
| MessageView.ViewIsExact | frontend/src/lib/queries/messages.ts:50-60 | when all events have arrived, in any run: the view is strictly ascending, misses no row in reach, and a message is the table's row if and only if the group stands and its copy holds |
| MessageView.ViewConverges | frontend/src/lib/queries/messages.ts:50-60 | with timely installs the view equals the table's rows if and only if the group stands or nothing is shown; it is strictly ascending and misses no row at or above the oldest loaded one |
| MessageView.UntimelyInstallLosesAnEdit | frontend/src/lib/queries/messages.ts:31-39 | a run in which a page installed after a younger edit was delivered stays stale |
| MessageView.DeletionLeavesTheView | backend/src/groups/groups.service.ts:204-213 | a run in which a client that heard everything in time shows a message whose group is gone |
| GroupTable.ApplyKeepsValid | backend/src/groups/groups.service.ts:56-343 | every request keeps one owner per group, one membership per user and group, and no dangling membership or message |
| GroupTable.OwnershipHolds | backend/src/groups/groups.service.ts:133-287 | the ownership invariant in every reachable state |
| GroupTable.SuccessorIsUnique | backend/src/groups/groups.service.ts:185-240 | (joinedAt, id) leaves one successor at most |
| GroupTable.SuccessorIsLongestStanding | backend/src/groups/groups.service.ts:204-207 | no other member joined before the successor, or in the same millisecond with a lesser id |
| GroupTable.OwnerLeaves | backend/src/groups/groups.service.ts:185-240 | an owner's leave makes the least (joinedAt, id) of the others the owner, or deletes the group with its rows exactly when there is no other |
| GroupTable.TransferIsExact | backend/src/groups/groups.service.ts:252-296 | the target becomes the owner and the caller a member, nothing else changes, and one event tells it |
| GroupTable.LeaveIsExact | backend/src/groups/groups.service.ts:185-240 | a leave removes one row, after making an owner's successor the owner, and tells both in that order |
| GroupsService.Service.FindUnique | backend/src/groups/groups.service.ts:306-321 | finds the one membership of the user in the group, or none |
| GroupsService.Service.FindFirstOther | backend/src/groups/groups.service.ts:185-240 | finds the longest-standing other member |
| GroupsService.Service.Create | backend/src/groups/groups.service.ts:56-85 | group and owner are inserted together, with the name, the creator and the join time given, or a name conflict changes nothing |
| GroupsService.Service.Join | backend/src/groups/groups.service.ts:133-172 | with others between lookup and insert: not found, conflict or a new member with the join time given, announced once |
| GroupsService.Service.Leave | backend/src/groups/groups.service.ts:185-240 | the three ways to leave, each with its rows and events |
| GroupsService.Service.TransferOwnership | backend/src/groups/groups.service.ts:252-296 | the two roles swap in one step, or one of three refusals, each exactly when it should, changes nothing |
| GroupsService.Service.MarkRead | backend/src/groups/groups.service.ts:327-343 | the caller's read time becomes the time given and is announced; a stranger changes nothing |
| MemberCache.SocketProvider.Update | frontend/src/lib/socket/socket-provider.tsx:71-133 | a handler changes the cached detail of its group and no other |
| MemberCache.HandlerSeesEachUser | frontend/src/lib/socket/socket-provider.tsx:71-185 | what a handler does to the list is, for each user, what the event says of that user; nobody is ever listed twice |
| MemberCache.SeenEventsChangeNothing | frontend/src/lib/socket/socket-provider.tsx:71-185 | hearing again a stretch of events, departures and returns included, leaves a user's row as it is |
| MemberCache.LastWriteWins | frontend/src/lib/socket/socket-provider.tsx:105-133 | without a departure role and read time end where the last event left them |
| MissedMembers.MissedIffHarmless | frontend/src/lib/socket/socket-provider.tsx:71-185 | a member row that never hears a stretch of events ends as one that did, if and only if the user leaves later, was absent and is, differs only in fields written again, or returns with an equal row |
| MissedMembers.AbsentIffEndsAbsent | frontend/src/lib/socket/socket-provider.tsx:71-102 | a user ends off the list if and only if the last departure is after every join, or there was neither row nor join |
| MemberView.DetailExists | backend/src/groups/groups.service.ts:109-126 | there is always a list of the group's members in join order to answer with |
| MemberView.SuccessionAnnounces | backend/src/groups/groups.service.ts:185-240 | `owner_changed` then `member_left` tells every user's row as the handover left it |
| MemberView.RequestAnnounces | backend/src/groups/groups.service.ts:133-343 | while the group stands the events of every request tell each user's row in it exactly |
| MemberView.DeletionIsSilent | backend/src/groups/groups.service.ts:185-240 | only a leave deletes a group, and it emits nothing |
| MemberView.SnapshotCatchesUp | frontend/src/lib/socket/socket-provider.tsx:71-133 | a detail read at log position n and patched from any earlier position again still ends as the whole log tells |
| MemberView.InstallIsExact | frontend/src/lib/socket/socket-provider.tsx:71-185 | each user's row of a detail, however late installed, ends as the whole log tells if and only if what was delivered since it was read is harmless to it |
| MemberView.MembersAreExact | frontend/src/lib/socket/socket-provider.tsx:71-185 | when all events have arrived, in any run: nobody is listed twice, and the list is exactly the server's rows if and only if the group stands and what each row missed is harmless, or the group is gone and nobody is left on the list |
| MemberView.MembersConverge | frontend/src/lib/socket/socket-provider.tsx:71-185 | with timely installs the cached list is exactly the server's rows if and only if the group still exists |
| MemberView.DeletionLeavesTheList | backend/src/groups/groups.service.ts:204-213 | a run with timely installs in which the list of a deleted group stays |
| MemberView.UntimelyInstallLosesAJoin | frontend/src/lib/socket/socket-provider.tsx:71-84 | a run in which a list installed after a younger join was delivered stays without the new member |
| SummaryQueue.JobIdsAreDistinct | backend/src/queues/queue.constants.ts:59-63 | job ids agree exactly for the same stage, group and window, whatever the group id |
| SummaryQueue.JobsAreTheirStages | backend/src/queues/queue.constants.ts:66-152 | the name, queue, data and options of each of the five jobs: the window's start with the fetch alone, ids of stage, group and window, three attempts with a delay from two seconds |
| SummaryQueue.TreesShareNoIds | backend/src/queues/queue.constants.ts:59-63 | jobs of two trees share an id if and only if they are the same stage of the same group and window |
| SummaryQueue.FlowIsAChain | backend/src/queues/queue.constants.ts:92-152 | the tree is one chain run fetch to root, with three attempts each, ids of its own, and failure passed up by all but the root |
| SummaryFlow.FlowFollowsTheTree | backend/src/queues/queue.constants.ts:66-152 | readiness, retries and the failure of ancestors of the model's five jobs are those the tree's children, attempts and failParentOnFailure flags give |
| SummaryFlow.OneStageIsReady | backend/src/queues/queue.constants.ts:78-91 | a flow that is not over has exactly one stage ready, and never has made more than fifteen attempts |
| SummaryFlow.TranscriptIsTheWindow | backend/src/summary/stages/summary.processor.ts:84-95 | the fetch skips as empty exactly when the group has no undeleted USER message in the window, and else transcribes each such message once and nothing else, oldest first, under its sender's name or the fallback |
| SummaryFlow.ResultFollows | backend/src/summary/stages/generate.processor.ts:59-76 | what a stage returns fits what its child returned: skips and their reasons pass on, a blank reply is a skip, a row carries the text generated |
| SummaryFlow.GenerateIsExact | backend/src/summary/stages/generate.processor.ts:59-76 | a transcript becomes the model's text or a skip as blank, a skip keeps its reason, and a missing child is a skip as empty |
| SummaryFlow.FailKeepsFlow | backend/src/queues/queue.constants.ts:66-76 | a failed attempt is retried or fails the job and all its ancestors, and stages still run in order |
| SummaryRuns.StepKeepsGood | backend/src/summary/stages/summary.processor.ts:55-128 | every worker's step, with faults before or after the effect, and every request, the deletion of a group among them, keeps the pipeline's invariant |
| SummaryRuns.BroadcastsAreStored | backend/src/summary/stages/publish.processor.ts:41-55 | every broadcast is of a row stored before, of the flow's group, and still in the table, with at most its reactions changed, if and only if the group has not been deleted since |
| SummaryRuns.EverySummaryWasSaved | backend/src/summary/stages/summary.processor.ts:99-118 | in every run each new summary of the table is one that a flow's save stored |
| SummaryRuns.PublishOutlivesTheGroup | backend/src/summary/stages/publish.processor.ts:41-55 | a run in which a row deleted with its group is broadcast and reported as published |
| SummaryRuns.SaveNeedsTheGroup | backend/src/messages/summary-messages.service.ts:45-52 | an attempt to save into a deleted group fails, and stores and broadcasts nothing |
| SummaryRuns.PublishedIffBroadcast | backend/src/summary/stages/summary.processor.ts:121-128 | a completed root reports published exactly when a broadcast occurred |
| SummaryRuns.SkipIsSilent | backend/src/summary/stages/generate.processor.ts:63-70 | a skip at fetch or generate stores and broadcasts nothing, and its reason is passed on |
| SummaryRuns.WindowEndsAtFanOut | backend/src/summary/stages/scheduler.processor.ts:128-157 | whenever its stages run, a flow is about the window that ended when it was added |
| SummaryRuns.GuardIsExact | backend/src/summary/stages/summary.processor.ts:79-82 | the fetch skips as existing exactly when the group has a summary in the window |
| SummaryRuns.FlowIsBounded | backend/src/queues/queue.constants.ts:66-76 | stages run in order; a flow ends within fifteen attempts, three rows and three broadcasts |
| SummaryRuns.EveryAttemptCounts | backend/src/queues/queue.constants.ts:66-76 | until a flow is over exactly one stage can run, and each attempt at it counts |
| SummaryRuns.SomeAttemptIsEnabled | backend/src/queues/queue.constants.ts:78-91 | until a flow is over some attempt is possible, and one without a fault unless it is to save into a deleted group |
| SummaryRuns.CleanFlowPublishes | backend/src/summary/stages/summary.processor.ts:71-128 | when nothing fails, a group with messages and no summary in the window gets one row with the model's text, one broadcast of it, and a published root |
| SummaryRuns.OverIsFinal | backend/src/queues/queue.constants.ts:78-91 | a flow that is over never changes again |
| SummaryRuns.ExhaustedStageFailsTheFlow | backend/src/queues/queue.constants.ts:87-91 | a stage fails only after three attempts, its ancestors fail untried, and nothing of the flow runs later |
| SummaryRuns.AtMostOnce | backend/src/summary/stages/summary.processor.ts:99-118 | without faults after an effect a flow stores one row and broadcasts once at most |
| SummaryRuns.LaterFlowIsSpaced | backend/src/summary/stages/summary.processor.ts:79-82 | summaries of a flow whose guard passed after another summary of the group was stored are more than the window younger than it |
| SummaryRuns.SummariesAreSpaced | backend/src/messages/summary-messages.service.ts:77-87 | every stored summary's flow passed its guard, and it is more than the window younger than each summary of its group stored before that |
| SummaryRuns.RequestsSpareSummaries | backend/src/messages/messages.service.ts:128-144 | no request edits a summary row, and it leaves the table only when its group is deleted |
| SummaryWorkers.SummaryMessages.PersistAiSummary | backend/src/messages/summary-messages.service.ts:45-52 | one row with no sender is inserted, unless the group is gone |
| SummaryWorkers.SummaryMessages.HasSummarySince | backend/src/messages/summary-messages.service.ts:77-87 | true exactly when the group has a summary at or after `since` |
| SummaryWorkers.SummaryProcessor.Save | backend/src/summary/stages/summary.processor.ts:99-118 | a save attempt returns and inserts what the pipeline's save step does, or fails and inserts nothing because the group is gone |
| SummaryWorkers.PublishProcessor.Process | backend/src/summary/stages/publish.processor.ts:41-55 | published exactly when the child handed over a saved row, which is then emitted unchanged |
| SummaryWorkers.SchedulerProcessor.FanOutSummaries | backend/src/summary/stages/scheduler.processor.ts:128-157 | the queue gains, in order, the flow of every group whose add succeeded, and the log, in order, every other group |
| SummaryWorkers.GroupsAreIsolated | backend/src/summary/stages/scheduler.processor.ts:143-156 | a group's flow is enqueued if and only if its own add succeeds, and the group logged if and only if it fails |
| SummaryWorkers.IdsChangeWithTheWindow | backend/src/summary/stages/scheduler.processor.ts:132-136 | two ticks give a group the same job ids exactly when they fall in the same window |
| Reactions.TogglesConserve | backend/src/messages/reactions.service.ts:47-68 | under every interleaving of statements and deletions of groups, no entry is held twice; while its message is there, additions less removals of an entry are the change in its presence, and afterwards it is not held |
| Reactions.EveryCallDoesOneThing | backend/src/messages/reactions.service.ts:29-84 | each call removes, adds or finds added, exactly one of them; it fails exactly when its check finds the message not in the group or its insert finds the message deleted, and never for a duplicate |
| Reactions.OtherEntriesAreUntouched | backend/src/messages/reactions.service.ts:47-84 | a call changes no entry but its own, only the deletion of a group takes others, and a call broadcasts the set as it stands |
| Reactions.SoloCallIsAToggle | backend/src/messages/reactions.service.ts:29-84 | an uninterrupted call is one whole toggle and answers with the set it leaves |
| Reactions.ToggleIsTheOneStepToggle | backend/src/messages/reactions.service.ts:47-68 | an uninterrupted toggle is the one-step toggle of the message table |
| Reactions.ToggleOfTheMessageTable | backend/src/messages/reactions.service.ts:47-84 | the message table's toggle leaves and announces the same set |
| Reactions.Parity | backend/src/messages/reactions.service.ts:47-68 | in every run an entry whose message is there is held as at the start if and only if an even number of calls flipped it, and calls for it that do not overlap all flip it |
| ReactionsService.Service.Toggle | backend/src/messages/reactions.service.ts:29-84 | with others before each statement: how the call ends, what it did, the tables it leaves, and the set it answers and broadcasts |
| ReactionChips.Aggregate | frontend/src/components/messages/reaction-chips.tsx:10-19 | one chip per emoji in order of first appearance, with its count and whether it is mine |
| ReactionChips.EmojisAreTheRows | frontend/src/components/messages/reaction-chips.tsx:10-19 | the chips' emojis are those of the rows, each once, each counted |
| ReactionChips.EmojisInOrderOfAppearance | frontend/src/components/messages/reaction-chips.tsx:10-19 | the chips come in the order of their emojis' first rows |
| ReactionChips.CountsSumToRows | frontend/src/components/messages/reaction-chips.tsx:10-19 | the counts sum to the number of rows |
| ReactionChips.ChipsCountPeople | frontend/src/components/messages/reaction-chips.tsx:10-19 | in every table with unique entries a count is the number of distinct users, and mine means my row is there |
| TypingReceiver.Receiver.OnEvent | frontend/src/lib/socket/use-typing.ts:34-52 | a start shows the user and restarts the timer, a stop takes both away, another group's event does nothing |
| TypingReceiver.Receiver.OnExpiry | frontend/src/lib/socket/use-typing.ts:43-46 | a due timer takes its user down and no one else |
| TypingReceiver.Receiver.OnCleanup | frontend/src/lib/socket/use-typing.ts:55-60 | tearing the effect down clears timers and list together |
| TypingReceiver.ShownAreTyping | frontend/src/lib/socket/use-typing.ts:30-61 | told by the events alone: nobody is shown twice; shown means last heard starting at most 5000 ms ago; whoever was heard starting less than 5000 ms ago is shown; a timer runs at 5000 ms and takes its user down |
| TypingSender.Sender.OnStop | frontend/src/lib/socket/use-typing.ts:64-72 | the timer is dropped, and a started typer stops, heard or not |
| TypingSender.Sender.OnKeystroke | frontend/src/lib/socket/use-typing.ts:74-82 | one start is emitted exactly when nothing is started, and every key on a connected socket moves the stop to 2500 ms from now |
| TypingSender.RunIsTold | frontend/src/lib/socket/use-typing.ts:63-82 | in every run the hook is what its actions tell: a start with the first key on a connected socket, a stop when asked for or 2500 ms after the last such key, and the pending timer due at that moment |
| TypingSender.EmissionsAlternate | frontend/src/lib/socket/use-typing.ts:64-82 | the emissions alternate if and only if no stop without a socket is followed by another start; a pending stop is due 2500 ms after the last key, told by the actions |
| TypingSender.IdleStopsOnTime | frontend/src/lib/socket/use-typing.ts:80-81 | the timer's stop is emitted exactly 2500 ms after the last keystroke |
| TypingSender.StopWithoutASocketIsLost | frontend/src/lib/socket/use-typing.ts:64-72 | a run that emits two starts in a row |
| Base64Url.RoundTrip | backend/src/common/utils/cursor.ts:34-34 | encoded text is safe in a URL and decodes to its bytes |
| Base64Url.SextetsAreTheBytes | backend/src/common/utils/cursor.ts:34-34 | each group of 24 bits is written in sextets as it stands in the bytes, as many sextets as the bits need |
| Base64Url.SymbolsAreTheAlphabet | backend/src/common/utils/cursor.ts:34-34 | the symbols are those of the URL-safe alphabet in its order |
| Utf16.Utf8RoundTrip | backend/src/common/utils/cursor.ts:34-39 | UTF-8 carries every text without lone surrogates |
| Utf16.PointBytesAre | backend/src/common/utils/cursor.ts:34-34 | lengths, lead bytes, tails and bits of the UTF-8 form of every code point |
| Utf16.PairsCountUp | backend/src/common/utils/cursor.ts:34-34 | surrogate pairs count up from U+10000 to U+10FFFF |
| JsonString.QuotedIsReadBack | backend/src/common/utils/cursor.ts:29-41 | every string survives quoting, control characters and lone surrogates included |
| JsonString.LongEscapes | backend/src/common/utils/cursor.ts:29-32 | control characters and lone surrogates are written in four hexadecimal digits, and anything else without a short escape as it is |
| IsoInstant.FieldsAreReadBack | backend/src/common/utils/cursor.ts:29-31 | an instant is the one its calendar fields name |
| IsoInstant.NextDayIsTheNextDate | backend/src/common/utils/cursor.ts:30-30 | a day later the fields are the next date of the Gregorian calendar at the same time: months of 31, 30 and 28 or 29 days |
| IsoInstant.ClockIsTheTimeOfDay | backend/src/common/utils/cursor.ts:30-30 | hours, minutes, seconds and milliseconds are the time since midnight |
| IsoInstant.TheEpochReads | backend/src/common/utils/cursor.ts:30-30 | the text of instant 0 is 1970-01-01T00:00:00.000Z |
| IsoInstant.TextIsTheFields | backend/src/common/utils/cursor.ts:30-30 | the text is the fields in their order and widths |
| IsoInstant.IsoStringIsReadBack | backend/src/common/utils/cursor.ts:29-44 | every instant a Date can hold survives its ISO text |
| Cursor.CursorRoundTrip | backend/src/common/utils/cursor.ts:27-59 | decoding an encoded cursor gives it back, for every instant and every id |
| Cursor.PayloadIsJson | backend/src/common/utils/cursor.ts:29-32 | the payload is the JSON object of the two strings under their names |
| Cursor.CursorsAreDistinct | backend/src/common/utils/cursor.ts:27-59 | two positions never share a cursor |

## Left out

- HTTP, Socket.IO, Redis, BullMQ, Prisma, React and TanStack Query themselves: only their contracts are used (atomic statements, in-order events, attempts, a parent after its child). BullMQ's deduplication by job id and its handling of stalled jobs are not modelled, so the pipeline's results hold for flows it would have deduplicated too.
- Cryptography: hashing, token randomness, argon2, JWT signing and Google verification.
- Several tabs over one localStorage: the single-flight theorem is about one tab.
- TanStack Query's refetch of loaded history pages and its cancelling of fetches.
- AI summaries in the message view: such a row is broadcast later than it is stored, and a reaction in between would be missed.
- The moment between a write, or the last read of a toggle, and its event: they are one step, so that events are emitted in the order of their statements. In the message table a toggle is one step; `Reactions` takes it apart.
- Deleting users, which no code of the repository does, and with them the cascade to memberships, tokens and reactions.
- The order of the cached member list: members that joined appear at the end of it, which is join order only as far as the clock is.
- Any claim that every message is summarized: with the interval equal to the window the guard skips.
- Room eviction and presence, message search, uploads, images, avatars, validation, configuration, health probes and error mapping.
- Cursor.DecodeCursor: reads the texts `encodeCursor` writes and refuses the rest; a JSON object with its fields in another order, white space, padding or a date in another accepted format is refused here where the code might accept it.
- SummaryWorkers.SchedulerProcessor.FanOutSummaries: the active groups and the success of each add are arguments; registering the repeatable jobs is not modelled.
- Whether the sender of a request is still a member when it is served: `GroupMemberGuard` is not part of the model of the messages, which lets any user write to a group that stands.
