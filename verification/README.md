# Talaqi protocols, modelled and proved

This project models the transactional protocols of Talaqi, a platform for clubs and events, and proves what they
promise. Each committed SQL transaction is one atomic step on small in-memory tables; a request that raises leaves the
tables as they were. `dafny verify dfyconfig.toml` checks everything.

**E-mail delivery** (`Email*.dfy`). Any number of workers lease rows, reserve a daily quota slot, call an idempotent
provider and finish with an update guarded by the attempt count. `EmailTables` holds each SQL statement as a function,
`EmailMachine` the interleavings: every worker has its own clock, may crash at every await, may lose the acknowledgement
of a commit, and may come back after its lease was taken over. `EmailFencing`, `EmailHolding`, `EmailLedger`, `EmailQuota`
and `EmailLog` are the invariants, `EmailTheorems`, `EmailConservation` and `EmailDayCap` what follows for every run, and
`EmailProjected` holds the worker's rules by type of event against the types the projection admits. `EmailSteps` and
`EmailCarryOver` build runs, and `EmailWorker` is `run_once` itself as a class whose steps are proved to be steps of the
machine while other workers interfere between its transactions.

- The quota caps what is reserved for a date, not what is sent on it: a reservation made before midnight is reused after
  it. Every date starts untouched (`EmailDayCap.UntouchedUntilClaimed`), and from there the cap holds for a user, however
  the date goes under clocks that show it, if and only if the quota is not positive or no delivery waits over: renderable,
  unsent, reserved for another date, and able to come due on this one (`EmailDayCap.CapHoldsIff`). For every quota of at
  least one some run sends one message more than it (`EmailCarryOver.QuotaDoesNotCapTheDay`).
- What calls of `run_once` return adds up to the delivered rows if and only if every delivering commit was acknowledged to
  a call that returned; a call that raises or dies returns nothing, and the sum is never too high
  (`EmailConservation.Conservation`). `EmailConservation.LostAcknowledgement` is a run that falls short.

**Clubs** (`Club*.dfy`). Creating, joining, leaving, approving, rejecting, role changes, transfer, closing, profile
updates and the moderators' status changes over clubs, memberships and join requests. `ClubTables` has the repository
statements, unchecked updates included, `ClubRules` the guards around them, `ClubTheorems` and `ClubAuthority` what holds
over every run, and `ClubService` the services as classes over mutable tables that such a run has made.

**Discovery** (`Pagination.dfy`, `DiscoveryOrders.dfy`, `Cursor.dfy`, `DiscoveryPaging.dfy`). Keyset pages of limit + 1
rows against the full sorted list, for any strict total order; the three ORDER BY clauses, defined column by column, and
the three handwritten "after the cursor" conditions; the signed cursor in unpadded base64url (section 5 of RFC 4648); and
walks that go by the cursors as they are sent.

**Supporting protocols.** Notification projection under redelivery (`Projection.dfy`, `ProjectionService.dfy`), private
links (`PrivateLinks.dfy`), account deletion (`Lifecycle.dfy`, `LifecycleService.dfy`), published content
(`EventUpdates.dfy`, `ClubAnnouncements.dfy`) and the outbox worker's backoff (`Backoff.dfy`).

- The delay of the outbox worker never shrinks from one attempt to the next up to attempt 10; after that the exponent
  stands still and it can, unless base * 1024 reaches the cap (`Backoff.NeverShrinksIff` is the exact condition).
- A cursor is longer than its decoder accepts exactly when its payload has more than 1503 bytes, and a club or search
  cursor is also refused when its key is empty or longer than 160 characters (`Cursor.CursorRoundTrip`).

## Model

| member | source | states |
|---|---|---|
| EmailTheorems.Fencing | apps/worker/src/talaqi_worker/email.py:338-359 | Over every interleaving, with arbitrary clocks and crashes: each (delivery, attempt count) token is handed out at most once, settled at most once, and never after the delivery was claimed again |
| EmailTheorems.SettledByHolder | apps/worker/src/talaqi_worker/email.py:291-311 | Whatever settles a row is the run that an earlier claim gave that token to |
| EmailTheorems.StaleWorkerIsHarmless | docs/runbooks/stuck-jobs.md:4 | A worker whose delivery was claimed again changes no row, no record and no counter when it completes, fails or defers |
| EmailHolding.HeldUntilSuperseded | apps/worker/src/talaqi_worker/email.py:291-311 | A run holds its item if and only if the history has neither a claim of the delivery under a later token nor a finish under this one |
| EmailHolding.FinishChangesIff | apps/worker/src/talaqi_worker/email.py:475-544 | A committed complete, fail or defer changes its row if and only if the delivery was not claimed again and the token not settled before |
| EmailHolding.ReclaimWaits | apps/worker/src/talaqi_worker/email.py:344-349 | A delivery in work is taken over only by a run whose clock is at least the lease past the clock of the run that claimed it before |
| EmailTheorems.RowChangesAreRecorded | apps/worker/src/talaqi_worker/email.py:475-544 | No step changes a delivery row without an event in the history that carries its id and its attempt count, so the history the other theorems speak of is complete |
| EmailTheorems.EndToEndOnce | apps/worker/src/talaqi_worker/email.py:284-311 | At most one message per delivery in the provider's log despite repeated sends; a delivered row has its message there, to its recipient, and stores the first 500 characters of the provider's id; mail that cannot be rendered is never sent |
| EmailTheorems.SendIsLogged | apps/worker/src/talaqi_worker/email.py:42-54 | What a send does to the provider in every reachable state: nothing on a refusal; the first time a message to the recipient under the sender's date, also when the answer is lost; later nothing but the stored answer |
| EmailTheorems.TerminalIsAbsorbing | apps/worker/src/talaqi_worker/email.py:338-359 | Delivered and permanently failed rows never change again, whatever follows |
| EmailConservation.Conservation | apps/worker/src/talaqi_worker/email.py:266-328 | What the calls of run_once that returned have returned never adds up to more than the delivered rows, and equals them if and only if the commit of every delivery was acknowledged to a call that returned |
| EmailConservation.LostAcknowledgement | apps/worker/src/talaqi_worker/email.py:291-327 | A run in which every call returns, the returned counters add up to zero, and one row is delivered |
| EmailTheorems.AttemptsAreAccountedFor | apps/worker/src/talaqi_worker/email.py:321-327 | Each attempt is a recorded retry, a deferral, a lost lease or the latest one; at most max_attempts - 1 retryable failures are ever recorded for a delivery |
| EmailTheorems.SecurityMailTerminates | apps/worker/src/talaqi_worker/email.py:515-544 | Mail of the identity and moderation services that never loses a lease is claimed at most max_attempts times, and after the last claim is in work or settled for good |
| EmailTheorems.SettledForGoodIff | apps/worker/src/talaqi_worker/email.py:312-327 | An acknowledged finish by the token's holder leaves a terminal row if and only if it is a completion, a permanent failure or the end of the last allowed attempt; otherwise a row to be retried later |
| EmailTheorems.NeverStuck | apps/worker/src/talaqi_worker/email.py:338-359 | Whatever crashed, every unsettled row can be claimed once its time has come, and the claim hands out the next token |
| EmailTheorems.DeferredUntilTomorrow | apps/worker/src/talaqi_worker/email.py:472-491 | A row deferred by the quota on one UTC day can be claimed again exactly from the next day's first microsecond on |
| EmailTheorems.RetryWaits | apps/worker/src/talaqi_worker/email.py:515-544 | In every reachable state: an acknowledged failure by the holder of token k that is neither permanent nor its last allowed attempt leaves a row that can be claimed again exactly 2^min(k, 8) minutes later: never before 2 minutes, always after 256 |
| EmailTheorems.RetryGrows | apps/worker/src/talaqi_worker/email.py:524 | The wait doubles with each token from two minutes up to 256 and stays there |
| EmailTheorems.DatabaseErrorsAreRetried | apps/worker/src/talaqi_worker/email.py:312-327 | A read or commit that raises leaves the run on the same item with a failure that is not permanent; recorded below the attempt limit for a held token, it leaves a row to be retried |
| EmailTheorems.QuotaSlotsAreExact | apps/worker/src/talaqi_worker/email.py:422-470 | The slots of a recipient and date are exactly 1..n, one delivery each, with n at most the quota, also when a stale and a current worker race on one delivery |
| EmailTheorems.DeferredOnlyWhenFull | apps/worker/src/talaqi_worker/email.py:437-470 | What a reservation does, case by case, with the reservations of that recipient and date counted: nothing on an aborted commit; nothing but a deferral when their number has reached the quota; an error when the primary key refuses a second reservation of the delivery; otherwise the next slot; and only an acknowledged commit is acted on |
| EmailTheorems.ReservationIsForGood | database/migrations/versions/0011_email_delivery_intents.py:70-96 | A delivery keeps the one reservation it got first: same date, same slot, for ever |
| EmailTheorems.SentWithinQuota | apps/worker/src/talaqi_worker/email.py:271-277 | Over k reservation dates at most k times the quota of distinct deliveries outside security mail is ever sent to a recipient |
| EmailTheorems.DayIsPartitioned | apps/worker/src/talaqi_worker/email.py:424-432 | What is sent to a recipient on a day is what was reserved for the day plus what was carried into it, so it stays within the quota if and only if the carried part fits into the rest |
| EmailTheorems.SentOnADay | apps/worker/src/talaqi_worker/email.py:424-432 | What is sent on one day is at most the quota plus what was reserved on other days |
| EmailProjected.SecurityIsByPrefix | apps/worker/src/talaqi_worker/email.py:577-578 | The prefixes the worker exempts from the quota pick out, among the types the projection admits, exactly those of its security category |
| EmailProjected.CategoryIsByPrefix | apps/api/src/talaqi/communications/service.py:90-98 | Event mail is that of registrations and events, community mail that of memberships and clubs |
| EmailProjected.CheckGoes | apps/worker/src/talaqi_worker/email.py:271-277 | A check sends mail of the security category straight to the provider, whatever the quota, the reservations and the read; mail of every other category goes there only with a reservation, and without one asks for a slot |
| EmailProjected.NeverHeldBack | apps/worker/src/talaqi_worker/email.py:271-277 | In every reachable state: mail whose type is "identity." or "moderation." and anything after it has no reservation, was never postponed, and goes to the provider after any check |
| EmailProjected.SentUnderReservation | apps/worker/src/talaqi_worker/email.py:271-277 | In every reachable state: the provider has taken mail of the event and community categories only under a reservation of its recipient |
| EmailProjected.RegistrationTemplates | apps/worker/src/talaqi_worker/email.py:547-568 | Which template the mail of each registration event gets, promotion from the waitlist included |
| EmailProjected.ProjectedMailRenders | apps/worker/src/talaqi_worker/email.py:493-568 | The worker has a template for every type the projection admits, so that the mail of a projected event can be rendered unless it is a verification or reset mail whose event carried no token |
| EmailDayCap.CapHoldsIff | apps/worker/src/talaqi_worker/email.py:424-432 | From an untouched date on, every way the date can go by clocks that show it keeps the recipient within the quota if and only if the quota is not positive or no renderable, unsent delivery that was reserved for another date can come due on this one |
| EmailDayCap.UntouchedUntilClaimed | apps/worker/src/talaqi_worker/email.py:422-470 | Until the first claim under a clock that shows a date, that date is untouched: nothing sent on it, nothing reserved for it, nobody at work under its clock |
| EmailCarryOver.QuotaDoesNotCapTheDay | apps/worker/src/talaqi_worker/email.py:424-432 | For every quota of at least one, every other configuration and every recipient, a run that sends quota + 1 messages on one day |
| EmailFencing.ReachableFenced | apps/worker/src/talaqi_worker/email.py:330-359 | The fencing invariant: ordered tokens, events no newer than their rows, runs holding only what was claimed for them |
| EmailLedger.ReachableLedger | apps/worker/src/talaqi_worker/email.py:266-328 | The accounting invariant: attempts, retries and counters balance in every reachable state |
| EmailLog.ReachableHonest | apps/worker/src/talaqi_worker/email.py:271-311 | The sending invariant: nothing outside security mail is sent without a reservation, and every worker about to complete holds the provider's answer |
| EmailTables.KeyInjective | apps/worker/src/talaqi_worker/email.py:284-290 | Two deliveries never share an idempotency key, and every key has the prefix of this worker |
| EmailWorker.Mailroom.FindReservation | apps/worker/src/talaqi_worker/email.py:424-432 | The check before the lock is the machine's Check step: mail whose type starts with "identity." or "moderation." passes without it; for all other mail a read that succeeds tells whether it has a reservation |
| EmailWorker.Mailroom.ReserveSlot | apps/worker/src/talaqi_worker/email.py:433-470 | Counting and inserting under the lock is the machine's Reserve step: whether a slot within the quota was reserved, what the table holds afterwards, and how primary key violation and lost commits end |
| EmailWorker.Mailroom.ProviderSend | apps/worker/src/talaqi_worker/email.py:42-54 | The provider logs a message under a new key only and repeats its answer under a known one |
| EmailWorker.Mailroom.RenderAndSend | apps/worker/src/talaqi_worker/email.py:278-290 | Rendering and sending is the machine's Send step, with permanent failure where there is no template or token |
| EmailWorker.Mailroom.UpdateHeld | apps/worker/src/talaqi_worker/email.py:291-311 | The guarded update hits exactly when the token is held, and afterwards it is held by nobody |
| EmailWorker.Mailroom.MarkDelivered | apps/worker/src/talaqi_worker/email.py:291-311 | Completing is the machine's Complete step; it reports whether it changed the row, and the row it leaves has the first 500 characters of the answer and the time of delivery, and no error |
| EmailWorker.Mailroom.DeferToMidnight | apps/worker/src/talaqi_worker/email.py:472-491 | Deferring is the machine's Defer step: a held row waits for the start of the next UTC day |
| EmailWorker.Mailroom.RecordFailure | apps/worker/src/talaqi_worker/email.py:515-544 | Failing is the machine's Fail step: a held row is given up after a permanent failure or the last allowed attempt, and otherwise waits for 2^min(token, 8) minutes, with the first 120 characters of the error; an exception here ends the run |
| EmailWorker.Mailroom.ClaimBatch | apps/worker/src/talaqi_worker/email.py:330-359 | The claim takes the oldest claimable rows nobody else holds locked, at most limit of them, marks them as in work since now under their next tokens, and hands these to the run |
| EmailWorker.EmailDeliveryWorker.DeliverItem | apps/worker/src/talaqi_worker/email.py:269-327 | One pass of the loop either advances the run with the item's token released for good, or ends the run |
| EmailWorker.EmailDeliveryWorker.DeliverAll | apps/worker/src/talaqi_worker/email.py:267-328 | The loop over the claimed items either returns the counter of a run that is over, with all its tokens released, or raises and leaves the run broken |
| EmailWorker.EmailDeliveryWorker.RunOnce | apps/worker/src/talaqi_worker/email.py:266-328 | run_once, with other workers interfering at each item, is a run of the machine that starts by claiming the oldest claimable rows: it returns the counter of a returned run, with none of the tokens given to these rows held any more, or raises and returns nothing |
| EmailWorker.ReleasedForGood | apps/worker/src/talaqi_worker/email.py:291-311 | Once released, a token stays released however the run goes on |
| ClubTheorems.Reachable | database/bootstrap.sql:337-379 | Every reachable state satisfies the invariant: one owner, one pending request, shapes of clubs and requests, unique slugs |
| ClubTheorems.OneOwner | apps/api/src/talaqi/clubs/repository.py:245-318 | In every reachable state a membership has the owner role if and only if it is that of the owner column's user |
| ClubTheorems.TransferSucceedsIffAllowed | apps/api/src/talaqi/clubs/membership_repository.py:413-455 | In every reachable state a transfer succeeds if and only if its guards pass: the conflict after the promotion cannot occur |
| ClubTheorems.TransferMovesOwnership | apps/api/src/talaqi/clubs/membership_repository.py:413-455 | A transfer keeps the member set, changes two roles and the owner column, adds one to the revision and touches nothing else: the unchecked updates hit one row each |
| ClubTheorems.AtMostOnePending | apps/api/src/talaqi/clubs/membership_repository.py:132-181 | A user has at most one pending request per club |
| ClubTheorems.DecidedIsFinal | apps/api/src/talaqi/clubs/membership_repository.py:337-376 | An approved, rejected or cancelled request never changes again |
| ClubTheorems.ApproveOnce | apps/api/src/talaqi/clubs/membership_service.py:145-184 | Approval leaves the user a member; repeating it after any further operations changes nothing and re-admits nobody who left |
| ClubTheorems.LeaveUndoesJoin | apps/api/src/talaqi/clubs/membership_service.py:99-133 | Leaving an open club after joining it restores the tables |
| ClubTheorems.LeaveCancelsRequest | apps/api/src/talaqi/clubs/membership_service.py:99-133 | In a club with approval, leaving after joining cancels exactly the user's one pending request |
| ClubTheorems.RevisionCounts | apps/api/src/talaqi/clubs/repository.py:409-477 | Each successful update, transfer or closing adds exactly one to its club's revision, and no other operation changes one |
| ClubTheorems.OneUpdatePerRevision | apps/api/src/talaqi/clubs/service.py:247-314 | Over any run at most one profile update based on a given revision of a club succeeds |
| ClubTheorems.RevisionIsConsumed | apps/api/src/talaqi/clubs/repository.py:409-477 | After a successful update the revision it was based on never comes back |
| ClubTheorems.UpdateSucceedsIff | apps/api/src/talaqi/clubs/service.py:247-314 | An update is refused to all but active managers of a club that is neither suspended nor closed, is stale if and only if its revision is not the current one, and otherwise succeeds if and only if the patched profile may stand: complete unless a draft, a city with its country, references found, no other club with the slug |
| ClubTheorems.UpdateForm | apps/api/src/talaqi/clubs/service.py:344-403 | What a successful update leaves: each of the ten fields as supplied or else as it was, the next revision, and publication now if it completed a draft |
| ClubTheorems.UpdateOfNothing | apps/api/src/talaqi/clubs/service.py:344-403 | An update that supplies no field changes nothing but the revision |
| ClubTheorems.PublishedMeansComplete | apps/api/src/talaqi/clubs/service.py:52-59 | Every draft lacks a description, category, country or city and was never published; every published, unpublished or suspended club has all four and its publication time |
| ClubTheorems.PublicationTimeIsFinal | apps/api/src/talaqi/clubs/repository.py:409-477 | Once set, published_at never changes |
| ClubAuthority.MembersComeAndGo | apps/api/src/talaqi/clubs/membership_service.py:52-184 | One becomes a member only by founding, by joining a published open club oneself, or by an approval of one's pending request, with a reason, by the active owner or an active admin of a club that is neither suspended nor closed; and ceases to be one only by leaving, which the owner cannot |
| ClubAuthority.RolesAreTheOwners | apps/api/src/talaqi/clubs/membership_service.py:223-294 | A member's role changes only at the hands of the active owner of a club that is neither suspended nor closed, who gives a reason: by a role change of somebody else or by the transfer |
| ClubAuthority.OnlyManagersDecide | apps/api/src/talaqi/security/authorization.py:66-100 | Approving, rejecting and updating succeed only for an active user who is the owner or has the owner or admin role, in a club that is neither suspended nor closed; everybody else is refused as soon as the reason passes |
| ClubAuthority.AdminsDecide | apps/api/src/talaqi/security/authorization.py:92-100 | An active admin with a reason of 3 to 500 characters succeeds in deciding any pending request, which then names who decided it, why and when |
| ClubAuthority.OtherClubsUntouched | apps/api/src/talaqi/clubs/membership_repository.py:337-376 | An operation on one club changes no row, membership or request of another |
| ClubAuthority.FrozenStandsStill | apps/api/src/talaqi/security/authorization.py:66-100 | From the moment a club is suspended or closed, no sequence of operations changes its row, members or requests until a moderator acts on it |
| ClubAuthority.ClosedIsFinal | apps/api/src/talaqi/clubs/membership_repository.py:457-470 | A closed club with its members and requests never changes again, also under moderation |
| ClubAuthority.ModeratedIff | apps/api/src/talaqi/moderation/repository.py:435-473 | Moderators suspend and unpublish published clubs only and restore exactly those they took down, and nothing but the status and the suspension time changes |
| ClubAuthority.RestoreUndoes | apps/api/src/talaqi/moderation/repository.py:435-473 | In every state with the invariant, restoring a club undoes its suspension or unpublication in the club tables |
| ClubTheorems.JoinLeaves | apps/api/src/talaqi/clubs/membership_service.py:52-97 | In every state with the invariant a successful join leaves a membership or a pending request, never two pending ones, and takes no membership or request from anybody |
| ClubTheorems.LeaveEnds | apps/api/src/talaqi/clubs/membership_service.py:99-133 | A successful leave ends the membership or withdraws what is pending, of that user only, and never of the owner |
| ClubTheorems.LeaveSucceedsIff | apps/api/src/talaqi/clubs/membership_service.py:99-133 | A leave succeeds if and only if the user is active, the club neither suspended nor closed, and the user a member without the owner role or, not being one, has a request pending; it removes exactly that membership or cancels exactly that request |
| ClubService.ClubDatabase.TransferOwnership | apps/api/src/talaqi/clubs/membership_repository.py:413-455 | Three updates in a row, of which only the second is checked: which of them hit, and what they leave |
| ClubService.ClubDatabase.CreateOrGetPending | apps/api/src/talaqi/clubs/membership_repository.py:132-181 | Inserts a request exactly when the user has none pending |
| ClubService.MembershipService.Join | apps/api/src/talaqi/clubs/membership_service.py:52-97 | Over tables that a run of operations has made: a join succeeds if and only if the user is active and verified and the club published; it leaves a membership or exactly one pending request, the new one with the message if there was none, and takes nothing from anybody; the tables remain those of a run |
| ClubService.MembershipService.Leave | apps/api/src/talaqi/clubs/membership_service.py:99-133 | Over tables that a run of operations has made: exactly when a leave succeeds, and that it removes the membership or cancels the one pending request and nothing else; with nothing to withdraw the transaction is rolled back |
| ClubService.MembershipService.Approve | apps/api/src/talaqi/clubs/membership_service.py:145-184 | An approval succeeds if and only if the reason has 3 to 500 characters, the actor is active and the owner or an admin of a club that is neither suspended nor closed, and the request is one of the club that is pending, or approved with its user still a member; anybody else is refused; the request then names actor, reason and time, and its user is a member; the guarded update cannot miss |
| ClubService.MembershipService.Reject | apps/api/src/talaqi/clubs/membership_service.py:186-221 | A rejection succeeds under the same conditions on actor and reason for a request that is pending or rejected already; it decides that request and leaves members and clubs as they are; the guarded update cannot miss |
| ClubService.MembershipService.ChangeRole | apps/api/src/talaqi/clubs/membership_service.py:223-254 | A role change succeeds if and only if the active owner of a club that is neither suspended nor closed, with a reason, gives it to another member, and nothing but that role changes; the guarded update cannot miss |
| ClubService.MembershipService.Transfer | apps/api/src/talaqi/clubs/membership_service.py:256-294 | A transfer succeeds if and only if its guards pass, each spelled out; it changes the two roles, the owner column and the revision and nothing else; each of its three updates hits its row, and the only conflict is a transfer to oneself |
| ClubService.MembershipService.Close | apps/api/src/talaqi/clubs/membership_service.py:296-319 | A closing succeeds if and only if its guards pass, each spelled out; it sets status and time and adds one to the revision; the guarded update cannot miss |
| ClubService.ClubProfileService.Create | apps/api/src/talaqi/clubs/service.py:158-227 | A club is founded if and only if the founder is eligible, the references are found, a city has its country and no club has the slug; its founder is its only member and owner, and it is published, with the time of founding, if and only if it has a description, category, country and city |
| ClubService.ClubProfileService.Update | apps/api/src/talaqi/clubs/service.py:247-314 | An update succeeds if and only if a manager makes it on the current revision and the patched profile may stand; each of the ten fields is then as supplied or as it was, the revision is one more, and a completed draft is public; it is stale only when the patch is, since the compare-and-set cannot miss under the lock |
| Pagination.SortedLists | apps/api/src/talaqi/discovery/repository.py:188 | The reference list shows every row once, in order |
| Pagination.ListingIsUnique | apps/api/src/talaqi/discovery/repository.py:188 | There is only one such list |
| Pagination.PageIsPrefix | apps/api/src/talaqi/discovery/routes.py:137-152 | Fetching limit + 1 rows and cutting gives the first limit of the rows that remain, and a cursor to the last of these exactly when more follow |
| Pagination.RestFollows | apps/api/src/talaqi/discovery/repository.py:143-154 | The rows after the cursor are the list without what was shown |
| Pagination.WalkIsSorted | apps/api/src/talaqi/discovery/routes.py:127-152 | On a fixed table, following the cursors terminates and the pages put together are the full sorted list, for every limit |
| Pagination.TravelIsFaithful | apps/api/src/talaqi/discovery/routes.py:127-152 | While rows are inserted and removed between requests: what is shown ascends strictly, only rows that were there are shown, and a completed walk shows every row that stayed |
| Pagination.AscendingShowsOnce | apps/api/src/talaqi/discovery/routes.py:127-152 | What ascends strictly shows no sort key twice |
| DiscoveryOrders.EventsAgree | apps/api/src/talaqi/discovery/repository.py:143-154 | The handwritten condition of the events query is strictly-after in ORDER BY score DESC, start, id, and a strict total order |
| DiscoveryOrders.ClubsAgree | apps/api/src/talaqi/discovery/repository.py:213-218 | The same for clubs by name and id, under any total order of texts |
| DiscoveryOrders.SearchAgrees | apps/api/src/talaqi/discovery/repository.py:302-314 | The same for search results by title, kind and id |
| DiscoveryOrders.EventsPageWell | apps/api/src/talaqi/discovery/routes.py:127-152 | Paging through events yields the sorted list on a fixed table and is faithful on a changing one |
| DiscoveryOrders.ClubsPageWell | apps/api/src/talaqi/discovery/routes.py:218-229 | Paging through clubs yields the sorted list on a fixed table and is faithful on a changing one |
| DiscoveryOrders.SearchPagesWell | apps/api/src/talaqi/discovery/routes.py:276-290 | Paging through search results yields the sorted list on a fixed table and is faithful on a changing one |
| DiscoveryOrders.EventsInOrder | apps/api/src/talaqi/discovery/repository.py:188 | Following the cursors shows every event once: the higher score first, then the earlier start, then the smaller id |
| DiscoveryOrders.ClubsInOrder | apps/api/src/talaqi/discovery/repository.py:213-218 | Following the cursors shows every club once: by name, then by id |
| DiscoveryOrders.SearchInOrder | apps/api/src/talaqi/discovery/repository.py:302-314 | Following the cursors shows every result once: by title, then kind, then id |
| Cursor.Unb64OfB64 | apps/api/src/talaqi/discovery/service.py:149-154 | For every byte string, decoding its unpadded base64url text gives it back |
| Cursor.B64IsUrlSafe | apps/api/src/talaqi/discovery/service.py:149-150 | What the encoder writes is letters, digits, '-' and '_' only |
| Cursor.LastSymbols | apps/api/src/talaqi/discovery/service.py:149-150 | The values 62 and 63 are written '-' and '_' |
| Cursor.BothSpellings | apps/api/src/talaqi/discovery/service.py:153-154 | The decoder does not tell the url-safe alphabet from the standard one |
| Cursor.DecodableIsBase64 | apps/api/src/talaqi/discovery/service.py:153-154 | The decoder refuses text with any character outside the two alphabets and the filler |
| Cursor.Repadded | apps/api/src/talaqi/discovery/service.py:153-154 | Re-padding by -len mod 4 restores the encoder's text; the unpadded text has ceil(4n/3) characters and no dot |
| Cursor.SplitJoined | apps/api/src/talaqi/discovery/service.py:119-125 | Splitting at the first dot recovers payload and signature |
| Cursor.EncodedPayload | apps/api/src/talaqi/discovery/service.py:28-116 | What a position is made into: version 1, the name of its list and its filters, and only for an id that is a UUID of version 7 |
| Cursor.CursorIsUrlSafe | apps/api/src/talaqi/discovery/service.py:103-116 | A cursor is letters, digits, '-' and '_' around one dot |
| Cursor.AcceptedIsSigned | apps/api/src/talaqi/discovery/service.py:118-142 | Whatever text is accepted has at most 2048 characters, the payload's own digest behind its first dot, and a payload of version 1 for this list and these filters with an admissible position |
| Cursor.CursorRoundTrip | apps/api/src/talaqi/discovery/service.py:103-142 | A position gets a cursor if and only if its id is a UUID of version 7; the cursor reads back as the position if and only if it is asked for in its own list with its own filters, its keys are admissible and its payload has at most 1503 bytes; otherwise it is refused |
| DiscoveryPaging.ReadingIsExact | apps/api/src/talaqi/discovery/routes.py:127-152 | A walk that goes by the cursors as they are sent shows the whole sorted list if and only if every row that ends a page with a next one comes back from its cursor; otherwise it shows the pages up to the first that does not, without that page when it gets no cursor at all |
| DiscoveryPaging.EventsReadThrough | apps/api/src/talaqi/discovery/routes.py:127-152 | For events these rows are those with a UUID of version 7 and a payload of at most 1503 bytes |
| DiscoveryPaging.ClubsReadThrough | apps/api/src/talaqi/discovery/routes.py:218-229 | For clubs also the name has 1 to 160 characters |
| DiscoveryPaging.SearchReadsThrough | apps/api/src/talaqi/discovery/routes.py:276-290 | For search results also the title has 1 to 160 characters and the kind is one of two |
| Projection.FirstDecides | apps/api/src/talaqi/communications/repository.py:20-119 | Whatever the duplicates, order, rollbacks and preference changes: an event has rows exactly when a delivery of it took effect, and they are those of the first that did |
| Projection.RunIsEachOnce | database/migrations/versions/0010_notification_outbox_projection.py:39-46 | With fixed preferences the tables are those of projecting each committed event once, on its own |
| Projection.OrderIsInvisible | apps/api/src/talaqi/communications/repository.py:20-119 | Two delivery sequences that committed the same events leave the same tables |
| Projection.EmailAsPreferred | apps/api/src/talaqi/communications/repository.py:76-119 | After any run of deliveries an event has an e-mail delivery if and only if the preference of its recipient allowed it at the first delivery that took effect; security mail always, and by default yes |
| Projection.ProjectedTypes | apps/api/src/talaqi/communications/service.py:10-40 | The sixteen types that are projected, and the category of each |
| Projection.RowsSayTheEvent | apps/api/src/talaqi/communications/repository.py:20-119 | After any run of deliveries the rows of an event say what its first effective delivery said: recipient_user_id before user_id, type, titles by category, details, and in the e-mail's intent its token and one of four locales |
| Projection.ProjectedIff | apps/api/src/talaqi/communications/service.py:59-98 | An event is projected without an error if and only if recipient, type, details and, where mail is wanted, the token can be read; it leaves nothing if and only if its recipient has gone |
| ProjectionService.NotificationTables.Project | apps/api/src/talaqi/communications/repository.py:20-119 | Inserting notification, deliveries and intent keeps one in-app delivery per notification and one intent per e-mail delivery, and tells whether rows were made |
| ProjectionService.NotificationTables.DeliverEvent | apps/api/src/talaqi/communications/service.py:59-81 | A delivery of an event, exceptions and failed commits included, is one step of the reference |
| PrivateLinks.OpensIffStanding | apps/api/src/talaqi/events/access_repository.py:162-199 | A token opens an event if and only if it is the last one issued for it, not revoked since, unexpired, and the event is open |
| PrivateLinks.IssuedIff | apps/api/src/talaqi/events/access_repository.py:75-147 | A link is issued if and only if its digest was never given out and, unless it rotates, no link of the event stands that is not expired |
| PrivateLinks.NeverAgain | apps/api/src/talaqi/events/access_repository.py:148-199 | A token that was replaced, revoked or has expired never opens anything again under a clock that does not run back |
| PrivateLinks.AtMostOneUnrevoked | apps/api/src/talaqi/events/access_repository.py:86-103 | An event has at most one unrevoked token, so the query for the active one cannot raise on two rows |
| PrivateLinks.EventAccessRepository.CreateLink | apps/api/src/talaqi/events/access_repository.py:75-147 | Issuing is the cell's step: refused beside an active link unless it rotates, else the old links are revoked and the new one stands |
| PrivateLinks.EventAccessRepository.RevokeLinks | apps/api/src/talaqi/events/access_repository.py:148-160 | Revoking empties the cell and tells whether it held a token |
| PrivateLinks.EventAccessRepository.ResolveLink | apps/api/src/talaqi/events/access_repository.py:162-199 | Resolving answers the event the cell opens, if any, and touches only the token's last use |
| Lifecycle.CancelXorCleanup | apps/api/src/talaqi/lifecycle.py:55-86 | A pending deletion can be cancelled if and only if less than 30 days have passed since the request, and exactly from then on a cleanup anonymizes the account |
| Lifecycle.DeadlineStays | apps/api/src/talaqi/lifecycle.py:27-53 | Repeated requests, and everything else short of a cancellation, leave the deadline where it is |
| Lifecycle.AnonymizedAfterWindow | apps/api/src/talaqi/lifecycle.py:72-106 | Behind every anonymized account there is a request at least 30 days older than the cleanup, not cancelled in between |
| Lifecycle.AnonymizedIsFinal | apps/api/src/talaqi/lifecycle.py:72-106 | An anonymized account never changes again |
| Lifecycle.CleanupTakesOldest | apps/api/src/talaqi/lifecycle.py:72-106 | A cleanup takes the oldest of the accounts due by any earlier instant that nobody holds locked and leaves the rest of them in order, whatever has come due since |
| Lifecycle.LimitsAreKept | apps/api/src/talaqi/lifecycle.py:168-179 | A cleanup with a limit outside 1 to 1000 does nothing |
| Lifecycle.Drain | apps/api/src/talaqi/lifecycle.py:168-179 | Exactly ceil(n / limit) runs leave none of n due accounts, each run under its own clock, as long as none runs behind the first, and whatever comes due meanwhile |
| LifecycleService.DataLifecycleRepository.RequestDeletion | apps/api/src/talaqi/lifecycle.py:27-53 | A request succeeds for active accounts and answers the instant of the first one |
| LifecycleService.DataLifecycleRepository.CancelDeletion | apps/api/src/talaqi/lifecycle.py:55-70 | A cancellation takes effect, and says so, exactly for an active account less than 30 days after its request |
| LifecycleService.DataLifecycleRepository.AnonymizeDue | apps/api/src/talaqi/lifecycle.py:72-106 | Anonymizes and returns exactly the batch of the reference: active accounts that nobody holds locked, at least 30 days past their request; no other account changes |
| EventUpdates.AudienceIsSnapshot | apps/api/src/talaqi/communications/content.py:111-205 | Whatever registrations change and whatever is replayed, an update stays as first published, which was against the event's revision then, and its recipients are those who matched its audience then |
| EventUpdates.ActiveMeans | apps/api/src/talaqi/communications/content.py:327-348 | The audience of all active registrations is the confirmed, cash-pending and waitlisted ones together; any other is those in the state asked for |
| EventUpdates.ListedIffMatched | apps/api/src/talaqi/communications/content.py:232-273 | A non-manager is shown an update if and only if their registration matched at first publication and fewer than 100 newer ones are there for them |
| EventUpdates.OrganizerContentRepository.CreateEventUpdate | apps/api/src/talaqi/communications/content.py:99-205 | A key publishes once, only against the current revision, and to exactly those whose registration matches then; a replay answers what was published and other content is a conflict, both without any change; earlier publications and their recipients stay as they are |
| EventUpdates.OrganizerContentRepository.ListEvent | apps/api/src/talaqi/communications/content.py:232-273 | Answers the newest updates the user may see, at most 100, newest first |
| ClubAnnouncements.RecipientsAreThoseReached | apps/api/src/talaqi/communications/content.py:32-97 | The recipients are exactly those who matched the audience at the publication or at one of its replays |
| ClubAnnouncements.AudienceMeans | apps/api/src/talaqi/communications/content.py:309-325 | Administrators are the owner and the admins |
| ClubAnnouncements.StepReaches | apps/api/src/talaqi/communications/content.py:371-399 | Recipients only grow, and only when this announcement is published or replayed |
| ClubAnnouncements.OrganizerContentRepository.CreateClubAnnouncement | apps/api/src/talaqi/communications/content.py:32-97 | One announcement per key, the first as published; a replay answers it, and other content under the key is a conflict and leaves nothing |
| Backoff.DelayIsBounded | apps/worker/src/talaqi_worker/outbox.py:127-140 | For every jitter function and all admitted bounds the delay lies between the capped exponential and base more, within the cap, and both ends are reached |
| Backoff.BoundedIs | apps/worker/src/talaqi_worker/outbox.py:131-134 | The capped exponential is base up to the first attempt, doubles with each attempt until it is base times 1024 at the eleventh, and stays there, never above the cap |
| Backoff.NeverShrinksIff | apps/worker/src/talaqi_worker/outbox.py:54-57 | Any delay at attempt k is at most any delay at attempt k + 1 if and only if k is at most 10 or base * 1024 reaches the cap |

## Left out

- Times are integers and identifiers naturals; delivery rows, reservations, clubs, tokens and users are never deleted.
- All e-mail workers share one quota, attempt limit, lease and provider, and the provider is idempotent under the key.
- Row locks and the per-recipient advisory lock: a transaction that holds them is one atomic step; `SKIP LOCKED` is a set of rows left out.
- Events and clubs of a request are locked first, so writes on one of them are serialized.
- Rendering, locales, templates' text, SMTP and provider transports: a send ends with an answer, a refusal, or an answer that was lost.
- A recipient's e-mail address and the text of a mail may change between two sends under one key; the model does not look at them.
- Registration, waitlist and cash-expiry services, and the outbox repository's own claim and completion.
- Outbox publications and audit records made beside the modelled changes.
- Eligibility, feature flags, media and region lookups: arbitrary verdicts given to the operation.
- Normalisation of slugs, names, links and reasons: operations get normalised values.
- HMAC, SHA-256, JSON text and UUIDs: functions of which only the round trip and the digest's length are used; no statement about forged cursors.
- Base64 texts with padding after a complete group of four, on which Python's versions differ: the model refuses them.
- Full-text search, collation and filters: a list pages over the keys that match; the order of texts is any strict total order.
- The private links of a club's events that its suspension or unpublication revokes.
- Moderation of users and events beyond suspending and restoring accounts and revoking links.
- Sessions, profiles and credentials cleaned up around account deletion.
- Which exception a database or provider call raises: any may occur at any call.
- Floating point and microsecond resolution of the backoff: delays are real numbers.
