# Anonymous chat, community feed and P2P file page — a Dafny model

This project models the sequential logic of a browser application with three
parts:

- a **community feed** (`FirebaseFeedManager` in `script.js`): posts with
  up/down vote counters, one vote record per user and item, a daily posting
  quota of five, score ordering, a filter that hides heavily down-voted
  posts, relative time labels, and post deletion;
- **identity helpers**: the 8-digit stable user id hashed from a browser
  fingerprint, and the default avatar picked from that id;
- **random chat matchmaking** (`FirebaseChat` in `script.js`): a waiting
  queue, chat rooms with participants, joining and pairing, the participant
  listener, disconnecting and the two reapers of abandoned rooms;
- the **P2P file page** (`P2PFileShare` in `app.js`): the 10 GiB size
  guard, the sender's `start` / 64 KiB slices / `end` protocol, the
  receiver's byte collection, offer storage and share-code extraction.

The backing store (Firebase) is a value `ChatStore.Db`: `queue`
(`waitingQueue`), `chats` and `presence`. Each client operation takes it and
returns the store it leaves behind. Browser storage is a `map` field. Time
(`Date.now()`), push keys, the listing order of store snapshots and the data
channel's state at each read are parameters.

Files:

- `wrappers.dfy`: `Option`.
- `text.dfy`: `split`/`join`, `startsWith`/`endsWith`, `trim` and decimal
  digit strings.
- `ranking.dfy`: the "higher first" comparator and the sort it drives.
- `identity.dfy`: the 32-bit rolling hash, `generateStableId`, `parseInt`,
  truncated `%` and `getAvatarUrl`.
- `feed.dfy`: the vote state machine, vote keys, quota, ordering,
  filtering, `formatTime`, offline deletion and the class `FeedManager`.
- `chat_store.dfy`: the store, the candidate tests, the store writes, the
  participant classifier and the reaper predicates.
- `chat_client.dfy`: the class `FirebaseChat`.
- `file_share.dfy`: slicing, the transmission, share links and the class
  `P2PFileShare`.

JavaScript semantics are written out where they matter:

- `hash & hash` is a wrap to signed 32 bits (`ToInt32`).
- `%` truncates toward zero (`TruncatedRemainder`).
- `parseInt` reads a decimal prefix or gives NaN (`None`).
- `a || b` falls back on falsy values such as `0` and `""`.

## Model

| member | source | states |
|---|---|---|
| Text.Split | script.js:1761-1763 | `split` gives at least one piece, no piece contains the separator, and a single piece exactly when the separator is absent |
| Text.JoinSplit | script.js:1761-1763 | joining the pieces of a split with the same separator gives the string back |
| Text.SplitAfterPrefix | script.js:1761-1763 | a prefix free of the separator becomes the first piece, whatever follows |
| Text.Trim | app.js:238 | the result is a substring neither starting nor ending with white space, everything cut off before and after it is white space, and a string already without surrounding white space is unchanged |
| Text.DecimalString | script.js:1353 | `String(n)` for a non-negative `n`: decimal digits whose value is `n`, without leading zeros |
| Text.LastDigitsValue | script.js:1354 | the last `k` digits of a digit string denote its value modulo `10^k` |
| Text.ZerosDoNotCount | script.js:1354 | left padding with `'0'` does not change the value of a digit string |
| Ranking.Insert | script.js:2266-2275 | inserting keeps an ordered list ordered and adds exactly that element |
| Ranking.Sort | script.js:2266-2275 | the sort result is a permutation of the input, ordered by the comparator (higher score first, then the tie-breaker) |
| Ranking.BeforeTotal | script.js:2268-2273 | the comparator orders every pair, and both ways only for equal keys |
| Ranking.BeforeTransitive | script.js:2268-2273 | the comparator is transitive |
| Identity.ToInt32 | script.js:1350 | `hash & hash` lands in the signed 32-bit range and differs from its input by a multiple of 2^32 |
| Identity.HashStepMultiplies | script.js:1349-1350 | `((hash << 5) - hash) + char`, wrapped, is `31 * hash + char` wrapped |
| Identity.HashStep | script.js:1349-1350 | one loop step `((hash << 5) - hash) + char` then `hash & hash`, always a signed 32-bit value; `HashStepMultiplies` gives its meaning |
| Identity.Hash | script.js:1346-1351 | the hash loop over the code units, always a signed 32-bit value; `HashIsTruncatedPolynomial` pins it to the wrapped base-31 polynomial |
| Identity.HashIsTruncatedPolynomial | script.js:1346-1351 | the loop's hash is the base-31 polynomial of the code units reduced to signed 32 bits |
| Identity.GenerateStableId | script.js:1331-1356 | the id is exactly 8 decimal digits, and their value is `abs(hash) mod 10^8` for the fingerprint's hash |
| Identity.LastEightDigits | script.js:1353-1355 | `String(n).padStart(8,'0').slice(-8)` is 8 digits with value `n mod 10^8` |
| Identity.ParseInt | script.js:1312 | `parseInt` is NaN exactly when no digit follows the leading white space and sign |
| Identity.ParseDigits | script.js:1312 | a non-empty digit string parses to its decimal value |
| Identity.TruncatedRemainder | script.js:1313 | `%` takes the sign of the dividend, stays below the divisor in magnitude, and `n == q*d + r` |
| Identity.AvatarIndex | script.js:1312-1313 | the index is NaN exactly when the id does not parse, and lies in -10..12 otherwise |
| Identity.NonNegativeAvatar | script.js:1304-1315 | for an id parsing to `n >= 0` the index is `n mod 12 + 1`, in 1..12, and the default URL names that picture |
| Identity.DigitIdAvatar | script.js:1304-1315 | a digit-string id (as `generateStableId` makes) gets picture `value mod 12 + 1`, in 1..12 |
| Identity.AvatarUrl | script.js:1304-1315 | every avatar URL is under the avatar base and ends in `.png`; a non-empty custom choice wins |
| Identity.IntString | script.js:1989 | `Date.now().toString()`: the digits of a non-negative number, or `-` and the digits of its magnitude |
| Feed.Decrement | script.js:2066-2070 | `Math.max(0, x - 1)` is never negative, subtracts one from a positive count and gives 0 for a count of 1 or less |
| Feed.VoteStep | script.js:2059-2089 | the record is cleared exactly when the click repeats the previous vote, else it becomes the click; counters stay non-negative; a first vote adds one to its own counter |
| Feed.RepeatRetracts | script.js:2059-2096 | voting the same direction twice clears the record and restores that counter; from no vote both counters return |
| Feed.SwitchUpToDown | script.js:2066-2089 | switching up to down floors `upvotes - 1` at 0, adds one down-vote and records `down` |
| Feed.VoteKeepsTally | script.js:2059-2096 | when the counters equal the tally of the records, they still do after a vote |
| Feed.TallyRemove | script.js:2066-2070 | removing a record lowers its direction's tally by one |
| Feed.TallyAdd | script.js:2072-2085 | adding a record raises its direction's tally by one |
| Feed.Record | script.js:2088-2096 | writing a user's record changes that user's lookup only |
| Feed.RecordRestores | script.js:2132-2136 | writing back the previous record restores the records exactly |
| Feed.Rollback | script.js:2128-2129 | the rollback computed from counters already at their optimistic value keeps that value |
| Feed.VoteKey | script.js:2058 | the key `${userId}_${id}` ends with `_` and the item id |
| Feed.ParseVoteKey | script.js:1761-1763 | the parse fails exactly when the key has no `_` |
| Feed.VoteKeyRoundTrip | script.js:1761-1763 | for a user id without `_`, parsing the vote key gives the item id back, even one containing `_` |
| Feed.VoteKeyAmbiguous | script.js:1761-1763 | a user id containing `_` makes the parse return the wrong item id |
| Feed.SuffixMatchesOwnItem | script.js:2761 | with ids free of `_` (or of equal length) the suffix test matches the key's own item only |
| Feed.SuffixMatchesOtherItem | script.js:2761 | an item id ending in `_c` makes the suffix test match item `c` too |
| Feed.WithoutRecordsFor | script.js:2788-2809 | exactly the records whose key matches none of the ids survive, unchanged |
| Feed.WithoutRecordsForItems | script.js:2788-2809 | for ids free of `_`, a user's record for an item survives exactly when the item is not among the deleted ids |
| Feed.UserVote | script.js:2259-2264 | a user's vote is the record under the vote key, absent exactly when no record exists |
| Feed.VisiblePosts | script.js:1694 | the filter keeps exactly the posts with `downvotes - upvotes <= 5`, in order |
| Feed.Visible | script.js:1694 | a post stays listed while its down-votes exceed its up-votes by at most 5; `VisiblePosts` and `VisibleCounts` pin the filter to it |
| Feed.VisibleSingle | script.js:1694 | a single post is kept exactly when it is visible |
| Feed.VisiblePostsAppend | script.js:1694 | the filter works post by post: filtering a concatenation concatenates the filtered parts, which with the single-post case fixes the result |
| Feed.VisibleCounts | script.js:1694 | each visible post is kept as many times as it occurs and each hidden one is dropped |
| Feed.VisibleKeepsOrder | script.js:1693-1694 | filtering a sorted list keeps it sorted |
| Feed.FindIndex | script.js:2738 | `findIndex` by id, for posts and for comments: the index found is the first element with that id, and none means no element has it |
| Feed.RemovePost | script.js:2738-2743 | `splice` removes exactly the first post with the id, and nothing when there is none |
| Feed.RecordPost | script.js:1995-1997 | recording a post raises that user's count for that day by exactly one and no other count |
| Feed.CanPost | script.js:1916-1919 | a user may post while that day's count is below 5; `QuotaAfterFive` shows the fifth post allowed and the sixth refused |
| Feed.FeedManager.CanUserPost | script.js:1916-1919 | `canUserPost` over the manager's counters, which `PublishLocally` and `PublishOnline` raise |
| Feed.QuotaAfterFive | script.js:1916-1930 | starting from zero, a fifth post is still allowed and a sixth is not |
| Feed.FormatTime | script.js:2303-2314 | the label's bucket: under a minute "just now", then whole minutes under an hour, whole hours under a day, whole days |
| Feed.AgeText | script.js:2310-2313 | the label of each bucket of `FormatTime`: "vừa xong", then the count with "phút trước", "giờ trước" or "ngày trước" |
| Feed.FormatTimeMonotonic | script.js:2303-2314 | as time passes a post's label never moves to a finer bucket |
| Feed.ThreadIds | script.js:2788-2800 | the ids of a post's comments, none when the post has no thread |
| Feed.CommentIds | script.js:2788-2800 | the ids of a comment list, in order |
| Feed.OfflineDeleteAsWritten | script.js:2785-2809 | the offline deletion as written drops the thread but leaves every comment vote in place |
| Feed.OfflineDelete | script.js:2785-2809 | the offline deletion drops the thread, the post's vote records and the vote records of its comments |
| Feed.OfflineDeleteKeepsCommentVote | script.js:2788-2800 | a comment vote on a deleted post survives the as-written deletion but not the corrected one |
| Feed.FeedManager.constructor | script.js:1437-1442 | a manager starts with no posts; threads, vote records and post counts are the saved local copies, each empty when never saved |
| Feed.CommentVoteOutcome | script.js:2208-2256 | how `voteComment` ends as written: `true` exactly after a successful database write, an exception exactly when the database is not ready |
| Feed.CommentVoteOutcomeCorrected | script.js:2246-2252 | with `saveLocalComments` called, a comment vote succeeds exactly when a post vote does and never throws |
| Feed.OfflineCommentVoteThrows | script.js:2246-2252 | offline, the as-written comment vote throws although the corrected one, like a post vote, succeeds |
| Feed.FeedManager.Vote | script.js:2046-2151 | a vote on a known post applies the vote step to its counters; the record is written unless the remote write failed, when the old record is restored and the optimistic counters kept; unknown posts change nothing |
| Feed.FeedManager.VoteComment | script.js:2153-2257 | the thread is sorted first; a vote on a comment in it applies the vote step and writes the record, which a failed database write restores; an array thread keeps the new counters, while a keyed database thread is sorted and voted as a copy and `comments` keeps what it held; offline the call throws after the changes; an unknown post or comment gives `false` |
| Feed.FeedManager.VoteInThread | script.js:2167-2256 | the vote step on comment `j` of the sorted thread, with the same record and rollback rules; the result is `true` only after a successful database write, and offline an exception |
| Feed.FeedManager.GetUserVote | script.js:2259-2264 | the post or comment vote record of the user |
| Feed.PostRank | script.js:2267-2274 | the feed's sort key: higher score first, then newer; `GetSortedPosts` sorts by it through `Ranking.Sort` |
| Feed.CommentRank | script.js:2293-2300 | the thread's sort key: higher score first, then older; `GetPostComments` sorts by it |
| Feed.FeedManager.GetSortedPosts | script.js:2266-2275 | `posts` is sorted in place: a permutation of the old posts, higher score first, then newer |
| Feed.FeedManager.GetPostComments | script.js:2277-2301 | the result is the thread sorted higher score first, then older, a permutation of it; an array thread is sorted in place, a keyed database thread is copied and `comments` is unchanged; no thread gives an empty list |
| Feed.FeedManager.CreatePost | script.js:1922-2005 | blocked content and a spent quota refuse before any write; success needs quota left and raises the day's count by exactly one; offline the new post goes first with trimmed text, zero votes and the author's avatar |
| Feed.FeedManager.PublishLocally | script.js:1987-2002 | offline, the new post goes in front of the others and the day's count is raised by exactly one; threads and vote records are untouched |
| Feed.FeedManager.PublishOnline | script.js:1942-1985 | online, the optimistic copy is shown and taken out again, so `posts` ends as it began; the day's count is raised exactly when the write succeeds, and a failed write is reported |
| Feed.FeedManager.LoadLocalPosts | script.js:1848-1855 | saved posts are loaded through the visibility filter; nothing saved changes nothing |
| Feed.FeedManager.LoadPosts | script.js:1688-1697 | the snapshot is sorted newest first and filtered, so every loaded post is visible and the list ordered; no snapshot gives no posts |
| Feed.FeedManager.DeleteLocally | script.js:2785-2809 | the local branch as written: the thread and the records on the post go, the records on its comments stay; posts and counts are untouched |
| Feed.FeedManager.DeleteLocallyCorrected | script.js:2785-2809 | the local branch corrected: the records on the post's comments go as well |
| Feed.FeedManager.DeletePost | script.js:2728-2818 | only the author may delete, and only after confirming; the post is spliced out; without a usable database (not ready, or its references missing) the local branch runs as written and the deletion succeeds; online local threads and records stay and the result is the write's |
| ChatStore.FirstOther | script.js:613 | `find(id => id !== myId)`: a participant other than me, none exactly when all are me |
| ChatStore.Others | script.js:1047-1065 | removing me keeps every other participant, once each |
| ChatStore.AddMember | script.js:675 | adding a participant adds exactly that one, without duplicates |
| ChatStore.JoinCandidateMeans | script.js:233-253 | a room is joinable exactly when its single participant is someone else who is online |
| ChatStore.IsJoinCandidate | script.js:233-253 | the room scan's test: one participant, not me, present in the online set; `JoinCandidateMeans` restates it as one other online user |
| ChatStore.FirstWaitingChat | script.js:218-255 | the first joinable waiting room in listing order; none means no room qualifies |
| ChatStore.FirstQueuedPartner | script.js:280-298 | the first other waiting user in listing order; none means nobody qualifies |
| ChatStore.FindWaitingChat | script.js:218-255 | the scan over the waiting rooms finds exactly the first joinable one |
| ChatStore.FindQueuedPartner | script.js:280-298 | the scan over the queue finds exactly the first other waiting user |
| ChatStore.OpenWaitingChat | script.js:460-469 | `createChat`'s write: a fresh waiting room holding me alone, nothing else touched |
| ChatStore.PairChat | script.js:542-562 | one update creates an active room of exactly me and the other user with count 2, and removes both queue entries |
| ChatStore.JoinExisting | script.js:619-642 | `joinExistingChat`'s writes: I join the room, which becomes active with count 2, keeps its messages, and my queue entry goes |
| ChatStore.AddParticipant | script.js:671-675 | `joinChat` writes me into the room's participants and changes nothing else |
| ChatStore.RejoinChangesNothing | script.js:671-675 | writing me into a room I am already in leaves the store exactly as it was |
| ChatStore.LeaveChat | script.js:1047-1065 | only my participant and typing entries go; the other participants and the messages stay |
| ChatStore.DeleteChat | script.js:1047-1065 | the whole room goes |
| ChatStore.Enqueue | script.js:302-308 | my queue entry is written as waiting with the current time |
| ChatStore.Dequeue | script.js:1072-1079 | my queue entry is removed |
| ChatStore.Classify | script.js:816-942 | the listener's case: empty ends the chat, two with me gives the stranger, me alone is waiting, anything else is invalid |
| ChatStore.PairMeansMeAndStranger | script.js:833-909 | the pair case holds exactly for me and one stranger, in either order |
| ChatStore.ActivityTime | script.js:3391 | a room's activity time is one of its last activity, its creation time or 0, and a recorded last activity always wins |
| ChatStore.EmptyChatReaped | script.js:3387-3395 | the background reaper always deletes a room without participants |
| ChatStore.ReapingIsMonotonic | script.js:1254-1261 | a room deletable at some time stays deletable later, for this reaper and for the background one |
| ChatStore.ReapersAgree | script.js:3386-3395 | a room the page's reaper deletes, the background reaper deletes too, and it has a participant |
| ChatStore.AbandonedForMe | script.js:1254-1261 | a room of mine is stale when empty, alone for 20 minutes or idle for 45; `ReapingIsMonotonic` and `ReapersAgree` are about it |
| ChatStore.AbandonedInBackground | script.js:3386-3395 | any room is stale when empty, alone for 15 minutes or idle for 30; `EmptyChatReaped` and `ReapersAgree` are about it |
| ChatStore.RemoveChatsWhere | script.js:1250-1276 | exactly the rooms the predicate selects are deleted; the rest are unchanged |
| ChatStore.BackgroundCleanup | script.js:3362-3414 | exactly the rooms past the 15/30-minute thresholds or without participants are deleted |
| ChatClient.MarkActive | script.js:892-904 | the room becomes active with count 2; its participants and the other rooms are kept |
| ChatClient.FirebaseChat.constructor | script.js:1427-1442 | a client starts outside any room, not queued, without partner or stranger |
| ChatClient.FirebaseChat.CleanupLocalState | script.js:1152-1178 | room, reference, partner and stranger are cleared; the queue handle is kept |
| ChatClient.FirebaseChat.JoinChat | script.js:656-689 | the client points at the room and I am written into its participants |
| ChatClient.FirebaseChat.CreateChat | script.js:460-498 | I end up in exactly one new room, a waiting room of my own |
| ChatClient.FirebaseChat.CreateNewChatWithUser | script.js:527-590 | nothing happens if the other user left the queue; otherwise the paired room is created and becomes mine, with the other user as partner |
| ChatClient.FirebaseChat.FindOrCreateChatWithUser | script.js:501-522 | nothing happens while already in a room; otherwise as `createNewChatWithUser` |
| ChatClient.FirebaseChat.JoinExistingChat | script.js:595-653 | a missing room changes nothing; otherwise I join it, leave the queue, and take its other participant as partner |
| ChatClient.FirebaseChat.JoinWaitingQueue | script.js:271-412 | with another user waiting I am paired with the first of them into one new active room, both queue entries go and that user is my partner; with nobody waiting my queue entry is written |
| ChatClient.FirebaseChat.FindChatAsWritten | script.js:203-268 | after a queue match I still go on to a second new room, ending up in two |
| ChatClient.FirebaseChat.FindChat | script.js:203-268 | starting outside any room I end up in exactly one new room: the queue pairing, else the first joinable room, else my own waiting room |
| ChatClient.FirebaseChat.RetryMatch | script.js:316-391 | only while queued and outside a room; the first joinable room is preferred and always joined; without one I pair with the first waiting user; a match adds exactly that room |
| ChatClient.FirebaseChat.OnParticipantsChanged | script.js:816-942 | an empty or invalid list resets the client; a new stranger is recorded and the room marked active; me alone clears a former stranger |
| ChatClient.FirebaseChat.DisconnectChat | script.js:1016-1105 | the room is deleted when it lists at most one participant, else only I leave it; my queue entry goes if I hold one; local state is always reset |
| ChatClient.FirebaseChat.OnWaitingRoomTimeout | script.js:483-495 | a room still current and still at count one is deleted, and only then |
| ChatClient.FirebaseChat.CleanupAbandonedChats | script.js:1234-1283 | exactly my rooms past the 20/45-minute thresholds are deleted |
| ChatClient.FirebaseChat.CleanupChatsWith | script.js:857-888 | exactly my other rooms with the previous stranger are deleted; the current room stays |
| FileShare.ChunkCountMeans | app.js:199-211 | slice `i` starts inside the file exactly when `i` is below the slice count |
| FileShare.ChunkCountIsCeiling | app.js:199-211 | the slice count is `ceil(size / 65536)` and the slices cover the file |
| FileShare.ChunkAt | app.js:206 | each slice is non-empty and at most 64 KiB; all but the last are exactly 64 KiB |
| FileShare.Chunks | app.js:199-211 | the first `k` slices are the slices at offsets `0, 65536, …` in order |
| FileShare.FlattenChunks | app.js:199-211 | the first `k` slices together are the file's first `k * 65536` bytes |
| FileShare.SlicesReassemble | app.js:199-211 | all the slices together are the file |
| FileShare.OpenRun | app.js:207-222 | sending goes on exactly while the channel is open |
| FileShare.TransmissionShape | app.js:189-235 | `start` with name and size comes first; `end` comes exactly when the channel stayed open for every slice, once and last; the payloads are the consecutive slices up to the first closed read |
| FileShare.Transmission | app.js:189-235 | the messages `sendFile` sends: `start`, the slices read while the channel is open, `end` after the last; `TransmissionShape` and `OpenChannelDeliversFile` state its shape, `Send` computes it |
| FileShare.LastStart | app.js:322-324 | the last `start` among the messages: absent exactly when there is none, otherwise one of them with no `start` after it |
| FileShare.OpenChannelDeliversFile | app.js:189-235 | with the channel open throughout, `ceil(size/65536)` slices are sent and they reassemble the file |
| FileShare.SendingStep | app.js:206-220 | an open read sends the slice at the offset and advances the offset by 64 KiB |
| FileShare.SendingStops | app.js:200-207 | sending ends at a closed channel, or with `end` once the offset reaches the size |
| FileShare.Send | app.js:196-235 | the loop sends exactly the transmission of the file |
| FileShare.OfferKey | app.js:368 | the storage key is `offer_` followed by the code, so distinct codes have distinct keys |
| FileShare.ExtractCodeCases | app.js:237-254 | empty input extracts nothing; input not starting with `http` is its trimmed self |
| FileShare.ExtractCode | app.js:238-254 | the trimmed input, or for a link its `code` parameter (`null` when it has none); `ExtractCodeCases`, `LinkWithoutCode` and `ShareLinkRoundTrip` pin it |
| FileShare.LinkWithoutCode | app.js:248-251 | a link without a query looks up the code `null` |
| FileShare.ShareLinkRoundTrip | app.js:248-254 | the share link and its bare code extract the same code |
| FileShare.P2PFileShare.constructor | app.js:2-22 | no file, no channel, nothing received and no size announced; a page whose address has a non-empty `code` parameter connects at once as a receiver, holding the offer stored under that code when one is stored and non-empty |
| FileShare.ShareLinkOpensReceiver | app.js:89-96 | a page opened at a share link looks the offer up by the link's code |
| FileShare.PageCode | app.js:89-96 | the code a page opens with: its address's non-empty `code` parameter, extracted; `ShareLinkOpensReceiver` pins it on share links |
| FileShare.IsOffer | app.js:256 | an offer passes `!offerData` when stored and non-empty; `ConnectToSender` and the constructor take the offer exactly then |
| FileShare.P2PFileShare.HandleFileSelect | app.js:98-125 | a file over 10 GiB (or none) is refused and the current file kept; otherwise it becomes the file and the data channel is opened; nothing else changes |
| FileShare.P2PFileShare.SendFile | app.js:189-235 | nothing without a file and a channel; otherwise exactly the transmission |
| FileShare.P2PFileShare.SetupReceiveChannel | app.js:313-318 | the received data is emptied and the byte count zeroed; only the channel and the collection change |
| FileShare.P2PFileShare.OnMessage | app.js:320-344 | `start` records name and size; binary data is appended and counted; `end` downloads the collected bytes; the count always equals the collected length; the file, channel, offer and storage do not change |
| FileShare.P2PFileShare.ReceiveAll | app.js:320-344 | in-order messages append exactly their binary payloads, in order, and leave the name and size of the last `start` (`LastStart`), or the earlier ones when there is none; only the collection, name and size change |
| FileShare.P2PFileShare.StoreOffer | app.js:367-373 | the offer is readable under its code; other codes are untouched and only storage changes |
| FileShare.P2PFileShare.UpdateStoredOffer | app.js:375-377 | the newer offer replaces the old one under its code; other codes are untouched and only storage changes |
| FileShare.P2PFileShare.ExpireOffer | app.js:369-372 | after the hour the code reads nothing, even after an update; other codes are untouched and only storage changes |
| FileShare.P2PFileShare.GetStoredOffer | app.js:379-381 | the offer stored under the code's key, absent when none is |
| FileShare.P2PFileShare.ConnectToSender | app.js:237-275 | empty input is ignored; otherwise the page becomes a receiver and holds the offer stored under the extracted code; a missing or empty entry is an invalid code and the offer held before is kept; only the receiver flag and the held offer change |

## Left out

- The Firebase connection, presence tracking, `on`/`once` listeners, `onDisconnect` hooks and the `isFirebaseReady` guards are left out. Store reads and writes are map operations on a `Db` value. A write either succeeds or fails, as a parameter. Presence is a set.
- Timers are not modelled: retry delays, the 30-second refresh, cleanup intervals and typing timeouts. What each timer decides is a method taking `now` (`RetryMatch`, `OnWaitingRoomTimeout`, `CleanupAbandonedChats`, `BackgroundCleanup`).
- The 30-second full refresh in `joinWaitingQueue` (script.js:395-411) is not modelled separately. It repeats `findChat` under the same guard.
- `setupChatCleanup` (script.js:1108-1147) is left out: its delete branch needs a count it never sees.
- `listenForQueueMatch` and `handleInvalidState`'s UI side are not part of this model. `OnParticipantsChanged` gives the state change.
- The DOM, notifications, themes, the avatar picker and messages are not modelled. `localStorage` persistence is modelled only as a map where a decision reads it.
- `containsBlockedContent` is a boolean parameter of `CreatePost`. It needs a regular-expression engine with stateful `lastIndex`.
- Browser fingerprint gathering is left out: `GenerateStableId` takes the fingerprint as UTF-16 code units.
- `parseInt` is modelled for decimal input only. Hexadecimal prefixes, and precision loss above 2^53, are not modelled.
- Object key order is a parameter (`order` sequences): Firebase snapshot listings and `Object.keys`. Participants are sequences without repeats, kept in the order they were written rather than in the database's key order. The two differ only in which other participant `find` picks from a room holding three or more.
- `generateShareCode` is random, so codes are parameters. `IsShareCode` describes what it yields.
- WebRTC (offer, answer, ICE), `FileReader`, `Blob` download and QR codes are not modelled.
- The base64 and JSON encoding of offers is left out: an offer is an opaque string. `JSON.parse` errors are not modelled.
- URL parsing is reduced to the query between `?` and `#`. There is no percent-decoding, `+` as space or host validation, and `new URL` never throws in the model.
- `formatFileSize`, `formatSpeed`, the progress percentages and other floating-point display values are left out. The time labels' Vietnamese text is kept in `AgeText`.
- The debug `window.*` helpers are not modelled.
- Feed.FeedManager.CreatePost: the remote `push` of an online post is not modelled, and the optimistic copy's id leaves out its `Math.random()` part. Online, `posts` is unchanged locally, and the remote listener that adds the post is not part of this model.
- Feed.FeedManager.VoteComment: which form a stored thread has is the `keyed` parameter. Threads written offline are arrays and threads read from the database are objects keyed by comment id; the model does not record the form per thread. The database write of a keyed thread's new counters, and the listener that brings them back into `comments`, are not modelled.
- Feed.FeedManager.VoteInThread: the local-storage writes are not modelled, so the offline exception shows only as the `Threw` result.
- Feed.FeedManager.DeletePost: the online branch's remote removals are modelled only as success or failure. Local state is unchanged in that branch.
- FileShare.P2PFileShare.SendFile: the transfer is one uninterrupted run over the file and channel held when the call starts. The source's `sendNextChunk` re-reads `this.file` and `this.dataChannel` at every step (app.js:200-209), so a file selected during a transfer changes the size test, the slices and the channel of the transfer under way; that interleaving is not modelled. `send` is taken never to fail, and `end` goes out with no `readyState` check (app.js:201).
- ChatClient.FirebaseChat.OnParticipantsChanged: the old-rooms cleanup it schedules is returned as `Connected(previous)` and run by `CleanupChatsWith`. It is not run inline.

## Findings

| source | as written | input that shows it | evidently intended | confidence | as-written member | corrected member |
|---|---|---|---|---|---|---|
| script.js:214-261 | `findChat` ignores whether `joinWaitingQueue` already paired me and goes on to join or create a second room | no current room, and another user waiting in the queue | stop once the queue step has put me in a room, so I am in exactly one new room | not executed | ChatClient.FirebaseChat.FindChatAsWritten | ChatClient.FirebaseChat.FindChat |
| script.js:2248-2252 | offline `voteComment` calls `this.saveComments()`, which the manager does not define, so it throws a `TypeError` after changing the counters and the record and never saves or returns `true` | a comment vote while the database is not ready | call `saveLocalComments` and return `true`, as the offline post vote does | not executed | Feed.CommentVoteOutcome | Feed.CommentVoteOutcomeCorrected |
| script.js:2788-2800 | offline `deletePost` deletes `comments[postId]` and then tests `if (comments[postId])` to remove comment votes, so that test never holds | a post `p` with comment `c` and a record `u_c` in `userCommentVotes` | remove the votes of the post's comments before dropping the thread | not executed | Feed.OfflineDeleteAsWritten | Feed.OfflineDelete |
