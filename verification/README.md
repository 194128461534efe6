# Realynk: verified models

Realynk is a chat backend: channels and direct conversations with message history, attachments kept in
an object store, typing and presence indicators, notifications, read receipts, moderation with an audit
log, and a request limiter. This project models the parts of it that keep state over time or derive one
structure from another, and proves what they promise for every input, every run and, where requests
overlap, every interleaving.

`dafny verify dfyconfig.toml` checks everything.

## How the program is represented

- Each file models one component. Objects whose methods change fields are classes with those fields;
  database tables are fields of type `seq`, `set` or `map` that the service methods reassign; loops of the
  source are loops. Every such method is proved against a function of the state (`After...`, `Apply`,
  `Commit`, ...), and the promises are proved about that function over whole runs. What one call does is also
  said without that function, by the rows, roles, limits, answers and events it is about.
- A lock region, a store access or a transaction is one atomic step. A commit that can violate a unique
  constraint has a failing branch; calls to the object store fail or succeed as an argument says, and a
  failed call may still have taken effect.
- Time is an integer read from the caller, identifiers and random values are arguments. Python's exceptions
  are values of a `Result`.
- Emitted events are appended to a log. For the in-process managers the log is in the order of the lock
  regions, which is the order in which the callers learn the results they broadcast.

| file | component |
|---|---|
| `Common.dfy`, `Alternation.dfy` | finite sequences; logs of events that alternate between up and down |
| `History.dfy`, `HistoryWalk.dfy` | message history pages, the walk back through them, access and writes |
| `Attachments.dfy` | the upload and delete protocol over two stores, with quotas |
| `Typing.dfy`, `Presence.dfy` | the typing and presence managers, and who may see a user's presence |
| `RateLimit.dfy`, `Abuse.dfy` | the request limiter and the abuse counter |
| `Moderation.dfy` | moderation and its audit log |
| `Mentions.dfy`, `Notifications.dfy`, `NotificationRuns.dfy`, `Fanout.dfy` | mentions, notifications, the pushed counter, fan-out of a message |
| `Reads.dfy` | read receipts, the unread count, announcements by room |
| `Channels.dfy` | channels and memberships under concurrent requests |

## What the code does differently from what one may expect

- **Limiter.** A bucket is one second wide whatever window is configured (app/security/rate_limiter.py:50-53),
  although the configuration names a window. "At most the limit per configured window" is therefore kept by
  every run of calls with that window only for a limit of 0 (`RateLimit.WindowPromiseIff`); the bounds that do
  hold are `AlignedBound` and `SpanBound`, and `BoundReached` shows that such calls attain the second one.
- **Attachments.** A failed storage upload can leave an object behind, so an object without an attachment is
  explained by a failed upload, a failed removal or a request still under way. A commit that takes effect and
  still reports an error is cleaned up like any other failed one, which takes the object of a stored attachment
  away (`Attachments.LostAcknowledgement`); every shown attachment has its object exactly as long as no clean-up
  does that (`ShownThroughoutIff`). The quota check and the insertion are not one transaction.
  `Attachments.MostFiles` and `MostBytes` are what a message can reach with a given number of overlapping
  uploads, for every configuration (`ReachBounds`, `MostFilesReached`, `MostBytesReached`); with limits that fit
  together they stay within the limits exactly when uploads to a message do not overlap (`CountPromiseIff`,
  `SizePromiseIff`).
- **Moderation.** Warnings, suspensions, bans and releases need a strictly higher rank than the target's.
  Removing somebody from a channel does not (app/permissions/moderation_permissions.py:46-47): a moderator can
  remove an administrator (`Moderation.AdminRemoved`), and every record that names a user follows rank exactly
  when no successful removal went the other way (`TargetsRankedIff`).
- **History.** The time of a message is that of its transaction's start, so a message can appear before the
  cursor of a walk under way. The walk shows it; a finished walk shows exactly the history of the start if and
  only if that did not happen (`HistoryWalk.WalkReproducesIff`).
- **Notifications.** The search for duplicates ignores deleted rows, the unique constraint does not: a batch
  fails as a whole exactly when `Fanout.BatchFailsIff` says so. In the code the violation can also surface at a
  query inside the batch, as an error that is not translated; both are the one failure `CreateFailed` here.
  Retention deletes rows without pushing a count; `NotificationRuns.ShownExact` says by how much the count a
  client shows is then too high.
- **Typing.** A timer that is cancelled when its deadline has come may be waiting for the lock already, and then
  expires its key all the same, even if it was started again (`Typing.LateExpiryTooEarly`). Announcements
  alternate in every case. Deadlines are exact, whatever follows, if and only if each cancel came before the
  deadline of the timer it cancelled (`DeadlinesExactIff`); that nobody is shown typing for too long holds in
  every run (`NeverTooLate`). A due timer runs up to `delay` after its deadline, as its thread is scheduled;
  with a delay of 0 "exact" means at the deadline itself.
- **Presence.** The two maps stay inverse exactly as long as no live socket is registered to a second user
  (`Presence.AlwaysInverseIff`); that a user's changes alternate and match is_online needs no such condition.
- **Channels.** The service would accept a change to the role of owner, the route does not;
  `Channels.ChangeRoleSoundIff` shows that this is what the single-owner invariant rests on. A join is checked
  before its transaction, so one that waits while its channel is made private is still committed
  (`Channels.LateJoin`). Only the invited get into private channels from some point on if and only if no join
  waits on a private channel at that point (`InvitationIff`), and at every point of a run if and only if no
  channel was made private over a waiting join (`OrderlyIff`).
- **Deleting messages.** Deletion marks the row and asks for an empty text in one commit, while the table has a
  check against empty texts (app/models/message.py:19). Whether the database takes the row is an argument of the
  two deletions (`accepted`); a refused commit changes nothing and leaves no record.
- **Locked channels.** The access check builds a user record without a moderation role
  (app/services/message_service.py:36), so a locked channel ends in an error that is not a refusal. It is kept
  as `Unhandled`, and the only claim about locked channels is who meets it (`History.ContextForExact`).
- **Cursors.** A cursor that names no message at all reads the newest page.

## Model

| member | source | states |
|---|---|---|
| History.PageDetermined | app/repositories/message_repository.py:18-47 | A page is the one list that is ascending, holds only eligible messages, leaves out older ones only and says truly whether older ones remain: the query returns it, and nothing else satisfies the description |
| History.ListHistoryIsPage | app/repositories/message_repository.py:18-47 | Every answer of the query meets that description |
| History.HasMoreExact | app/repositories/message_repository.py:43-47 | has_more is true exactly when the context holds a message older than the oldest one shown |
| History.PageComplete | app/repositories/message_repository.py:18-47 | A message of the context before the cursor by time and identifier is on the page, or older than all of it while has_more is true |
| History.PageOrdered | app/repositories/message_repository.py:33-47 | A page is in ascending order of time and then identifier, within the limit, and full when has_more is true |
| History.PageWithinAccess | app/services/message_service.py:114-126 | A page handed out shows messages of the requested context only, to a member or active participant, with exactly one context given |
| History.ListMessagesIsPage | app/services/message_service.py:114-126 | With access and a cursor that names a message of the context, the service answers with a page if and only if that page meets the description for messages before that row; with a cursor that names no message, or none, for the newest ones |
| History.CursorRefusedIff | app/services/message_service.py:119-126 | The cursor is refused if and only if the user has access and it names a message of another context |
| History.ContextForExact | app/services/message_service.py:26-48 | Access is given exactly to members of unlocked channels and to participants who have not left; the request is malformed exactly if it gives both contexts or neither |
| History.MessageService.CreateMessage | app/services/message_service.py:51-79 | Succeeds exactly for an unrestricted user with access to the one context given, a content of 1 to 4000 characters that is not blank and an identifier not in use; success adds exactly the one message, in that context, failure nothing, and each refusal says which check failed first |
| History.MessageService.EditMessage | app/services/message_service.py:90-99 | Succeeds exactly for the unrestricted sender of an undeleted message and changes text, edit mark and update time of that row only |
| History.MessageService.DeleteMessage | app/services/message_service.py:102-111 | Succeeds exactly for the active sender of an undeleted message whose row the database takes, marks the row deleted and keeps its place in the history |
| HistoryWalk.WalkMissesNothing | app/repositories/message_repository.py:18-47 | Whatever others insert, edit or delete between fetches, what a walk shows is in order without repetition, and a finished walk has shown every message the context held at the start |
| HistoryWalk.WalkReproducesIff | app/repositories/message_repository.py:18-47 | A finished walk has shown exactly the history of the start, in order, each message once, if and only if no fetch found a message added since before its cursor |
| HistoryWalk.FullHistoryPlaces | app/repositories/message_repository.py:18-47 | The history of a context, which such walks reproduce, is in order and holds exactly the messages of that context |
| HistoryWalk.WalkReproducesHistory | app/repositories/message_repository.py:18-47 | In particular when everything that others insert is newer than the history of the start |
| HistoryWalk.WalkTerminates | app/repositories/message_repository.py:43-47 | As long as has_more is true and no added message got before a cursor, the fetches so far times the limit is below the number of messages at the start, so the walk ends |
| HistoryWalk.CursorIsOldest | app/services/message_service.py:114-126 | The cursor of the next fetch of a walk over the service's answers resolves to the row of the oldest message shown, edited or deleted as it may be by now |
| HistoryWalk.PageNumberMatchesCursor | app/repositories/message_repository.py:33-47 | On an unchanged history the p-th page of the cursor walk is the page fetched past p - 1 full pages |
| HistoryWalk.PageByNumber | app/routes/messages.py:86-93 | The service's answer for the offset (page - 1) * limit is the page the cursor walk is at, items and has_more |
| HistoryWalk.PageReachedIff | app/routes/messages.py:86-93 | A cursor walk over an unchanged history reaches the page of a number if and only if it is the first or its offset lies within the history |
| Attachments.StoresAgree | app/services/attachment_service.py:59-112 | In every state that interleaved uploads, deletes and failures reach, a shown attachment has its object unless its commit was not acknowledged and its upload has cleaned up, and an object without a shown attachment belongs to a request under way or to a storage call that reported an error |
| Attachments.ShownThroughoutIff | app/services/attachment_service.py:64-73 | For every run: each shown attachment has its object throughout if and only if no clean-up was for a commit that had taken effect and whose row was still shown |
| Attachments.ShownKeptIff | app/services/attachment_service.py:68-73 | One step keeps the object of every shown attachment if and only if it is not such a clean-up |
| Attachments.AcknowledgedAgree | app/services/attachment_service.py:59-112 | When no commit that takes effect reports an error, every shown attachment has its object in every reachable state |
| Attachments.LostAcknowledgement | app/services/attachment_service.py:64-73 | For every configuration that admits a file, a run that fails: the commit takes effect, reports an error, and the clean-up removes the object |
| Attachments.OrphansOnlyAfterFailedRemovals | app/services/attachment_service.py:59-112 | If failed uploads leave nothing in storage, an object without a shown attachment and without a request under way exists only after a failed removal |
| Attachments.ReachBounds | app/services/attachment_service.py:39-43 | With at most so many uploads to a message overlapping, it never has more attachments than MostFiles nor more bytes than MostBytes, for every configuration |
| Attachments.MostFilesReached | app/services/attachment_service.py:39-66 | For every configuration and overlap some run brings a message to exactly MostFiles attachments |
| Attachments.MostBytesReached | app/services/attachment_service.py:41-66 | And some run to exactly MostBytes |
| Attachments.CountPromiseIff | app/services/attachment_service.py:39-40 | Every run keeps to the number of attachments allowed if and only if MostFiles does: for a limit of 1 or more that its bytes allow, if and only if uploads to one message do not overlap |
| Attachments.SizePromiseIff | app/services/attachment_service.py:41-43 | Every run keeps to the total size if and only if MostBytes does: when a message can be filled with the files it may have, if and only if uploads to it do not overlap |
| Attachments.QuotasHold | app/services/attachment_service.py:39-43 | With at most k uploads to a message overlapping, it has at most k - 1 attachments beyond its limit and at most k - 1 full files beyond its size limit |
| Attachments.SerialQuotasHold | app/services/attachment_service.py:39-43 | With uploads to one message made one after the other, count and total size respect their limits in every run |
| Attachments.UploadAllowedIff | app/services/attachment_service.py:24-43 | An upload passes its checks if and only if the message is there, accessible and undeleted, the file is not empty and within the megabytes allowed, fewer files than allowed are shown on the message, and their sizes with the new one are within the total; each refusal has its own condition |
| Attachments.TotalSizeExact | app/repositories/attachment_repository.py:37-44 | The total is the sum of the sizes of the rows shown on the message |
| Attachments.StepNoMore | app/repositories/attachment_repository.py:27-44 | Every step but the beginning of an upload adds nothing to the pending and active files and bytes of any message |
| Attachments.AttachmentService.UploadAttachment | app/services/attachment_service.py:24-75 | Each refusal in its order leaves everything as it was; an upload that is saved adds exactly its row and its object, one whose storage call fails adds no row, and one whose commit fails keeps its object only if the clean-up fails too |
| Attachments.AttachmentService.DeleteAttachment | app/services/attachment_service.py:101-112 | Only the uploader of the attachment and the sender of its message delete it, and whoever has no access does not find it; the row is hidden before the object is removed, and stays hidden when the removal fails |
| Attachments.UploadIsRun | app/services/attachment_service.py:45-75 | What an upload does, in each outcome, is a run of the protocol's steps |
| Attachments.DeleteIsRun | app/services/attachment_service.py:101-112 | So is what a deletion does |
| Typing.AnnouncementsAlternate | app/presence/typing_manager.py:20-71 | For every interleaving of start, stop, clean-up and expiry, late expiries included, each key's announcements alternate beginning with started, is_typing is true exactly after started, and no entry is without sources |
| Typing.SourcesExact | app/presence/typing_manager.py:20-66 | In every interleaving a socket is a source of a key if and only if it started typing there and has since been neither stopped nor cleaned up, and the key has not expired since |
| Typing.StartAnnounces | app/presence/typing_manager.py:20-31 | After any run a start announces if and only if by that run no socket was typing at the key |
| Typing.StopAnnounces | app/presence/typing_manager.py:33-45 | And a stop if and only if somebody was typing at the key and only from that socket |
| Typing.CleanupAnnounces | app/presence/typing_manager.py:47-58 | And a clean-up exactly the keys that were being typed at only from that socket |
| Typing.DeadlinesExact | app/presence/typing_manager.py:20-66 | In every run in which each cancel comes before the deadline of its timer, a typing key has exactly one armed timer, set to a timeout after its latest start; an absent key has none; and what fires ends a typing key at its deadline or at most the delay after it |
| Typing.NeverTooLate | app/presence/typing_manager.py:20-66 | In every run, late expiries included, a typing key has not outlived its latest start by more than the timeout and the delay |
| Typing.DeadlinesExactIff | app/presence/typing_manager.py:26-30 | For every run so far: deadlines are exact in whatever follows, late expiries included, if and only if each cancel of the run came before the deadline of the timer it cancelled |
| Typing.ExactHereafterIff | app/presence/typing_manager.py:60-66 | The same for a state: if and only if no late expiry is outstanding |
| Typing.LateKeepsTimelyIff | app/presence/typing_manager.py:60-66 | A late expiry leaves the deadlines right if and only if its key is not in the table |
| Typing.LateExpiryTooEarly | app/presence/typing_manager.py:26-30 | A run that fails: a start at the deadline of the timer before it, whose expiry comes all the same and ends the key a whole timeout early |
| Typing.DiscardStep | app/presence/typing_manager.py:47-58 | One turn of the clean-up loop does to one entry what stop does, and lists the key exactly if it lost its last source |
| Typing.TypingManager.Start | app/presence/typing_manager.py:20-31 | Adds the source, replaces the timer, and answers true exactly when nobody was typing |
| Typing.TypingManager.Stop | app/presence/typing_manager.py:33-45 | Removes the source, and the entry with its timer exactly when it was the last source |
| Typing.TypingManager.CleanupSocket | app/presence/typing_manager.py:47-58 | Removes the socket everywhere and lists, without repetition, exactly the keys it was the last source of |
| Typing.TypingManager.Expire | app/presence/typing_manager.py:60-66 | Removes the entry and no other, whichever timer calls, and announces it exactly if there was one |
| Presence.StatusesAlternate | app/presence/manager.py:14-41 | After every run, whoever registers whose sockets, each user's changes alternate beginning with online, and is_online is true exactly after "online" |
| Presence.SocketsExact | app/presence/manager.py:14-34 | After every run, live sockets taken over or not, a user has exactly the sockets the user registered and did not own at any unregistering since, and a socket belongs to whoever registered it last unless it was unregistered since |
| Presence.InverseKeptIff | app/presence/manager.py:14-34 | From inverse maps a call keeps them inverse if and only if it does not register another user's live socket |
| Presence.AlwaysInverseIff | app/presence/manager.py:14-34 | For whole runs: the maps are inverse throughout if and only if no live socket was ever registered to a second user |
| Presence.CountsAddUp | app/presence/manager.py:43-45 | The connection counts of the connected users add up to the number of live sockets |
| Presence.PresenceManager.Register | app/presence/manager.py:14-20 | Adds the socket to both maps and reports online exactly for the first socket |
| Presence.PresenceManager.Unregister | app/presence/manager.py:22-34 | Removes the socket, names its user, and reports offline exactly with the last socket |
| Presence.VisibilitySymmetric | app/repositories/presence_repository.py:22-48 | Who may see whom is symmetric |
| Presence.ViewersExact | app/repositories/presence_repository.py:22-48 | A user sees a target if and only if they are the same, are both members of some channel, or are both in some conversation that neither has left |
| Presence.ObserversAreViewers | app/repositories/presence_repository.py:22-76 | The observers of a user, with the user, are exactly the viewers the pairwise query accepts |
| Presence.RecipientsExact | app/services/presence_service.py:52-59 | The union of the observers' sockets is exactly the live sockets of permitted viewers |
| Presence.RecipientSocketIds | app/services/presence_service.py:52-59 | The method returns that set |
| RateLimit.DecisionExact | app/security/rate_limiter.py:68-95 | In a serial run with pruning anywhere, a call is counted with all earlier calls of its second, key and scope, none forgotten |
| RateLimit.AnswerExact | app/security/rate_limiter.py:68-95 | In every serial run each answer is allowed if and only if the calls of its second, key and scope so far, itself included, are within the limit; remaining is the limit less those calls, or 0, and reset is the start of the second plus the window |
| RateLimit.PruningInvisible | app/repositories/security_repository.py:71-77 | The answers (allowed, limit, remaining, reset) are those of a table that nobody prunes |
| RateLimit.PruningAnywhere | app/repositories/security_repository.py:71-77 | Two runs with the same calls get the same answers wherever either prunes |
| RateLimit.AllowedInSecond | app/security/rate_limiter.py:78-95 | Of the n calls of one second, key, scope and limit exactly min(n, limit) are answered with allowed |
| RateLimit.AlignedBound | app/security/rate_limiter.py:50-53 | In a span of W whole seconds that starts on a second at most limit * W calls are answered with allowed |
| RateLimit.SpanBound | app/security/rate_limiter.py:50-53 | In any span of W seconds at most limit * (W + 1) calls are answered with allowed |
| RateLimit.BoundReached | app/security/rate_limiter.py:50-53 | For every limit and window some run of calls made with that limit and window lets limit * (W + 1) of them through within one window |
| RateLimit.WindowPromiseIff | app/security/rate_limiter.py:50-65 | "At most limit calls per configured window" is kept by every run of calls with that window if and only if the limit is 0 |
| RateLimit.RateLimiter.CheckRateLimit | app/security/rate_limiter.py:68-95 | The bucket's count goes up by one, the limit is the one given or the scope's, and the reset is the configured window after the start of the second; a disabled limiter allows everything and touches nothing |
| RateLimit.RateLimiter.AddRateLimitEvent | app/repositories/security_repository.py:15-40 | Afterwards the bucket has the given count and expiry, whether it was new or not |
| RateLimit.RateLimiter.IncrementBucket | app/repositories/security_repository.py:51-69 | Counts one call; the first of a bucket is always let through |
| RateLimit.RateLimiter.PruneExpired | app/repositories/security_repository.py:71-77 | Keeps exactly the buckets that have not expired before now, unchanged, and returns how many went |
| Abuse.CountExact | app/security/abuse_detector.py:34-40 | The count returned is 1 plus the number of earlier calls with the key whose stamp is at most 60 seconds before the reading, although old stamps are dropped |
| Abuse.TableShowsLog | app/security/abuse_detector.py:34-40 | Seen through any later window, the pruned list is the full log |
| Abuse.AbuseDetector.Record | app/security/abuse_detector.py:34-40 | The key's list becomes its recent stamps and the new one, and its length is returned |
| Moderation.LogDeterminesState | app/services/moderation_service.py:34-116 | After any run, bans, suspensions with their expiry, and channel locks are a replay of the audit log; bans and releases alternate per user, locks and unlocks per channel |
| Moderation.AdminsUntouched | app/permissions/moderation_permissions.py:26-43 | Every warning, suspension, ban and release was written by an administrator about somebody who is none or by a moderator about a plain member, so administrators are never the target of one, nor banned or suspended |
| Moderation.TargetsRankedIff | app/permissions/moderation_permissions.py:30-47 | For every run: every record that names a user, removals from channels included, was written by a strictly higher rank if and only if no successful removal had a target of the actor's rank or above |
| Moderation.AdminRemoved | app/services/moderation_service.py:119-132 | A run in which a moderator removes an administrator from a channel, and its record |
| Moderation.RestrictedNeverAct | app/permissions/moderation_permissions.py:4-27 | Whoever wrote a record was, by the log up to then, neither banned nor under a suspension still in force when the rights were read |
| Moderation.LogDeterminesMembership | app/services/moderation_service.py:119-132 | A membership is gone exactly when the log says it was removed, and an owner's never is |
| Moderation.LogDeterminesMessage | app/services/moderation_service.py:135-147 | A message is marked deleted exactly when the log says so; one deleted before is left as it was |
| Moderation.ModerationService.WarnUser | app/services/moderation_service.py:49-54 | Succeeds exactly for an active, unrestricted moderator or administrator of a higher role than the target; adds that one record, or changes nothing |
| Moderation.ModerationService.SuspendUser | app/services/moderation_service.py:57-67 | Succeeds exactly with such rights while no suspension is in force; sets the start to the clock and the end that many seconds later, or none for no duration or 0, and records the same end |
| Moderation.ModerationService.UnsuspendUser | app/services/moderation_service.py:70-78 | Succeeds exactly with such rights while a suspension is in force; clears both fields of the target only |
| Moderation.ModerationService.BanUser | app/services/moderation_service.py:81-89 | Succeeds exactly with such rights for a user who is not banned; sets the time of the ban and nothing else, and the duration is not used |
| Moderation.ModerationService.UnbanUser | app/services/moderation_service.py:92-100 | Succeeds exactly with such rights for a banned user; clears the ban and nothing else |
| Moderation.ModerationService.LockChannel | app/services/moderation_service.py:103-116 | Succeeds exactly for an active, unrestricted moderator or administrator when the lock is not already as requested; sets time and author, or clears both |
| Moderation.ModerationService.RemoveChannelMember | app/services/moderation_service.py:119-132 | Succeeds exactly for an active, unrestricted moderator or administrator and a membership that is not the owner's; removes that membership only |
| Moderation.ModerationService.DeleteMessage | app/services/moderation_service.py:135-147 | Marks an undeleted message and records the action, or is refused by the database and does neither; an already deleted one is only recorded |
| Mentions.MentionedNames | app/services/notification_service.py:183 | The scan returns exactly the names of all mentions; none is lost to another match |
| Mentions.MatchAt | app/services/notification_service.py:18 | A match starts at a position exactly if a mention does, and takes as many name characters as it may |
| Mentions.NamesSpelled | app/services/notification_service.py:18 | A name is mentioned if and only if it is, in small letters, the 3 to 30 letters, digits or underscores after an "@", as many as there are up to 30 |
| Notifications.NotificationService.GetPreferences | app/services/notification_preference_service.py:17-21 | The overlaid defaults agree with is_enabled for every type |
| Notifications.NotificationService.SetPreferences | app/services/notification_preference_service.py:39-48 | Exactly the given types of that user change |
| Notifications.NotificationService.CreateNotification | app/services/notification_service.py:27-70 | Nothing for missing or inactive recipients or disabled types, the existing row for a duplicate, otherwise exactly the row asked for, unread, announced and followed by the count, or failure without a trace |
| Notifications.SingleIsBatch | app/services/notification_service.py:47-70 | A batch of one item adds the row, or nothing when the item is unwanted or a duplicate, exactly as a single creation |
| Notifications.NotificationService.CreateManyNotifications | app/services/notification_service.py:73-103 | All rows of the batch are added and announced in order, or none |
| Notifications.NotificationService.MarkAsRead | app/services/notification_service.py:117-126 | Only the recipient's own row becomes read, nothing else of any row changes, it is announced with the count, the recipient's count drops by exactly 1 if the row was unread and undeleted, and a repeat answers false and changes nothing |
| Notifications.NotificationService.MarkAllAsRead | app/services/notification_service.py:129-136 | Returns exactly the previous unread count, marks exactly the undeleted rows of that user, and pushes a count of 0 only if something was unread |
| Notifications.NotificationService.DeleteNotification | app/services/notification_service.py:139-148 | Only the recipient's own row is hidden, it is announced once with the count, and the count drops by exactly 1 if the row was unread |
| Notifications.NotificationService.CleanupOldNotifications | app/services/notification_service.py:155-161 | Keeps exactly the rows created at the cutoff or later, pushes nothing, returns how many went |
| Notifications.MarkAllCounts | app/repositories/notification_repository.py:46-66 | Marking all leaves 0 unread for the user and every other user's count as it was |
| Notifications.CountUnreadExact | app/repositories/notification_repository.py:46-53 | The count is the number of rows of that recipient that are neither deleted nor read |
| Notifications.ReadingCounts | app/services/notification_service.py:117-126 | Marking a row read takes exactly 1 from its recipient's count if it was unread and undeleted, and nothing from any other |
| Notifications.CreatedIsBatch | app/services/notification_service.py:27-70 | Whatever the outcome of a single creation for an active user, it leaves what a batch of that one item leaves |
| NotificationRuns.ShownIsUnread | app/services/notification_service.py:27-148 | In every run of single and batch creations, readings and deletions, without retention, the count last pushed to a user, or 0, is the number of the user's unread notifications |
| NotificationRuns.ShownExact | app/services/notification_service.py:155-161 | In every run, retention included, that count exceeds the true one by exactly the unread rows retention removed since the last push |
| NotificationRuns.CleanupKeepsShownIff | app/services/notification_service.py:155-161 | Retention keeps a correct count correct if and only if it removes no unread row of that user |
| NotificationRuns.EachAnnouncedOnce | app/services/notification_service.py:233-235 | In every run without retention the notifications announced as created are exactly the stored ones, each once, in order, to its recipient |
| NotificationRuns.ReadingPushesRight | app/services/notification_service.py:117-148 | Marking and deleting push the right count to the user concerned and change nobody else's |
| NotificationRuns.CreatePushesRight | app/services/notification_service.py:233-239 | A batch pushes the final count to every recipient of a new row and changes nobody else's |
| Fanout.BatchFailsIff | app/services/notification_service.py:73-103 | A batch violates the constraint if and only if a wanted item's key is held by a deleted row, or is empty and already in use |
| Fanout.DuplicateFound | app/repositories/notification_repository.py:19-28 | The search for duplicates finds one if and only if the key is not empty and an undeleted row of the recipient has it |
| Fanout.DeletedKeyFails | app/repositories/notification_repository.py:19-28 | The failing case: the search for duplicates misses a deleted row and the insertion fails |
| Fanout.BatchCovers | app/services/notification_service.py:73-103 | After a batch every wanted item has an undeleted row with its recipient and key |
| Fanout.EachRecipientOnce | app/services/notification_service.py:164-193 | A fresh message gives every active reader of its context but the sender exactly one unread notification with the key of type, message and reader: a mention if the text names the reader, else the type of the context, unless the reader disabled that type; and nobody else any |
| Fanout.NotifyAgain | app/services/notification_service.py:164-193 | Notifying a message again, in any order and after any creations and readings, adds and pushes nothing as long as no notification was removed |
| Fanout.KeyInjective | app/services/notification_service.py:188-191 | A deduplication key determines type, message and recipient, so the keys of a batch are pairwise distinct |
| Fanout.OthersStayFresh | app/services/notification_service.py:164-193 | Notifying one message uses no key of another |
| Fanout.MessageItems | app/services/notification_service.py:164-191 | The loop builds one item for each recipient, of the right type and with its key |
| Fanout.NotifyMessage | app/services/notification_service.py:164-193 | The batch of exactly those items is created, or nothing is |
| Reads.MarkManyExact | app/services/read_service.py:44-58 | A batch keeps one row per message and user, adds rows of that user and time for unread messages only, lowers the user's unread count by exactly the created rows whose message somebody else sent, and creates nothing when repeated |
| Reads.OthersUnaffected | app/repositories/read_repository.py:33-63 | Other users' unread counts stay as they were |
| Reads.UnreadCountExact | app/repositories/read_repository.py:33-63 | The unread count is the number of undeleted messages by others, in channels the user is a member of and conversations the user has not left, that the user has no row for |
| Reads.MessageForExact | app/services/read_service.py:17-21 | A message is found if and only if the user belongs to its context; a member of a locked channel meets the unhandled error, everybody else is refused |
| Reads.CommitsIff | app/services/read_service.py:51-57 | A batch commits if and only if no concurrent request has meanwhile read one of its messages that the user had not read before |
| Reads.ReadService.MarkRead | app/services/read_service.py:24-41 | Afterwards the row exists; created is reported exactly when neither an earlier nor a concurrent request had it, and losing the race is never an error |
| Reads.ReadService.MarkMany | app/services/read_service.py:44-58 | Succeeds exactly if every message is accessible and undeleted and no race is lost; a deleted message is reported exactly if all are accessible and one is deleted; a failure creates no row |
| Reads.ReadService.Summary | app/services/read_service.py:61-69 | read_count is the number of users who have read the message, and read_at the time in the user's own row, if there is one |
| Reads.GroupByRoom | app/routes/reads.py:64-70 | Each room's list is the created rows of its messages in order, and every room listed has some |
| Reads.RoomsPartition | app/routes/reads.py:64-76 | Every created row is announced once, in the room its message was sent in, and in no other |
| Channels.OneOwner | app/services/membership_service.py:21-84 | In every interleaving of checks and commits, failed ones included, each channel has exactly one owner membership, its owner's, nobody is a member twice, and memberships belong to existing channels |
| Channels.OwnerNeverChanges | app/services/channel_service.py:28-59 | Whoever created a channel owns it and keeps the owner's membership for as long as it exists |
| Channels.ChangeRoleSoundIff | app/services/membership_service.py:75-84 | A role change keeps the invariant if and only if the new role is not owner, which is what validation admits |
| Channels.CommitSound | app/services/membership_service.py:21-84 | A write checked earlier keeps the invariant whatever was committed in between |
| Channels.PrivateByInvitation | app/services/membership_service.py:44-61 | A call that nobody interrupts adds somebody to a private channel only as a plain member invited by one whose row there says admin or owner; interrupted calls are the subject of InvitationIff |
| Channels.AddIff | app/services/membership_service.py:44-61 | Adding passes its checks if and only if the actor's row says admin or owner, the user exists and has no row; a plain member is forbidden, an outsider denied |
| Channels.RemoveIff | app/services/membership_service.py:64-72 | Removing: if and only if the actor's row says admin or owner and the user has a row that does not say owner |
| Channels.ChangeRoleIff | app/services/membership_service.py:75-84 | Changing a role: if and only if the actor's row says owner and the user has a row that does not |
| Channels.UpdateIff | app/services/channel_service.py:18-52 | Updating: if and only if the actor's row says admin or owner, and owner when the privacy is set; outsiders do not find a private channel |
| Channels.DeleteIff | app/services/channel_service.py:18-59 | Deleting: if and only if the actor's row says owner |
| Channels.JoinIff | app/services/membership_service.py:21-33 | Joining: if and only if the channel is public and the user has no row |
| Channels.LeaveIff | app/services/membership_service.py:36-41 | Leaving: if and only if the user has a row that does not say owner |
| Channels.ModerateIff | app/services/moderation_service.py:119-132 | A moderator's removal: if and only if it is permitted and the user has a row that does not say owner |
| Channels.CommitExact | app/services/membership_service.py:21-84 | A committed write adds the one plain row, removes the one row, changes the role of the one row, removes a channel with its rows, or sets its privacy, and changes nothing else |
| Channels.CommitIff | app/services/membership_service.py:21-84 | The commit fails if and only if the channel is gone or the inserted user has a row by then |
| Channels.PerformExact | app/services/membership_service.py:21-84 | A call that nobody interrupts fails like its check or has exactly the effect of the write that was checked |
| Channels.MembersAdmitted | app/services/membership_service.py:21-61 | In every interleaving each membership but the owner's goes back to an invitation by a user whose row said admin or owner when it was checked, or to a join checked while the channel was public |
| Channels.InvitationIff | app/services/membership_service.py:21-33 | After any run: as long as no channel is made private over a waiting join, only the invited get into private channels from then on, if and only if no join waits on a private channel now |
| Channels.OrderlyIff | app/services/membership_service.py:21-33 | For whole runs: this holds at every point of a run if and only if no channel was made private over a waiting join |
| Channels.SafeKeptIff | app/services/channel_service.py:42-52 | One step keeps private channels free of waiting joins if and only if it does not make a channel private over one |
| Channels.LateJoin | app/services/membership_service.py:21-33 | A run that fails: a join checked while the channel is public and committed after it became private |
| Channels.ChannelService.GetChannelForUser | app/services/channel_service.py:18-25 | A private channel is not found by outsiders, exactly like one that does not exist |
| Channels.ChannelService.CreateChannel | app/services/channel_service.py:28-39 | The channel, with the privacy asked for, and its owner's membership appear together, and nothing else changes |
| Channels.ChannelService.UpdateChannel | app/services/channel_service.py:42-52 | Needs an admin, and the owner to change privacy; the owner of the channel is not changed |
| Channels.ChannelService.DeleteChannel | app/services/channel_service.py:55-59 | Needs the owner; takes the memberships along, or fails as a whole when the channel is referred to |
| Channels.ChannelService.JoinPublic | app/services/membership_service.py:21-33 | Adds a plain membership of a public channel unless there is one |
| Channels.ChannelService.LeaveChannel | app/services/membership_service.py:36-41 | Removes the caller's membership unless it is the owner's |
| Channels.ChannelService.AddMember | app/services/membership_service.py:44-61 | Adds a plain membership for an existing user on behalf of an admin or owner |
| Channels.ChannelService.RemoveMember | app/services/membership_service.py:64-72 | Removes a membership that is not the owner's on behalf of an admin or owner |
| Channels.ChannelService.ChangeMemberRole | app/services/membership_service.py:75-84 | Changes the role of a member who is not the owner on behalf of the owner |

## Left out

- Attachments.StoresAgree: objects left by an upload that reported an error count as explained, because the storage client does not say whether a failed upload left anything.
- Moderation.LogDeterminesState: of a suspension's start it says only that it is not before its record, because the record's time is the database's and the start is the server's; the time of a ban is not in the log at all.
- Channels.OneOwner: a removal or role change that was checked earlier is committed by channel and user, while the code addresses the row it loaded; for a user who left and joined again in between the code changes nothing, which is covered as a commit that fails.
- Reads.MarkManyExact: counts for one request; arrivals of messages and changes of membership between requests change the count in ways of their own.
- Access to messages of locked channels, which ends in an unhandled error.
- Moderation.LogDeterminesMessage: claims the deletion mark only; the empty text that deletion also asks for is what the check of the table refuses, so nothing is said about the text of a deleted message.
- Titles, bodies, metadata and actors of notifications, reasons and metadata of moderation records, names and descriptions of channels: carried along without any decision.
- Marking a suspended or deactivated account while its requests run: user records are read once per operation.
- Overlapping transactions in the limiter, in moderation and in notification batches: these operations are serial here. Attachments, read receipts, channel memberships, typing and presence are modelled with overlap.
- Moderator reads of the audit log, listing queries of channels, members and notifications, reactions, and conversation creation.
- The score of the abuse detector, metrics, socket limits, request decorators, and the normalisation of addresses.
- File validation beyond the size, storage paths, checksums and signed URLs.
- Non-ASCII characters in mentions and in the test for blank text: name characters are ASCII in the pattern itself, lower-casing is of ASCII letters, and blank means ASCII white space.
- Flask routes and Socket.IO handlers apart from the offset of a page, the accepted roles and the grouping of read events; sessions, migrations, configuration parsing and authentication.
