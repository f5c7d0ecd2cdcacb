# Ionnet Mailer, verified models

A Dafny model of the stateful parts of Ionnet Mailer, a self-hosted mail server with a web client, and proofs of what they
promise. `dafny verify dfyconfig.toml` checks everything. Code that changes state step by step is modelled by classes and
loops, each proved against a function of its inputs or of the old state; the promises are lemmas about those functions.

- Conversations (`Envelopes`, `Subjects`, `Forest`, `SubjectFallback`, `Grouping`, `Conversations`, `ConversationLaws`,
  `RowFields`): messages are grouped with a disjoint-set forest over message ids and a date-ordered subject pass. The result
  is exactly the partition into connected components of all links, where the subject links join every close pair.
- Opening a thread (`Folder`, `ThreadClosure`, `SearchRounds`, `ThreadLookup`, `WholeThreads`, `FindableSubjects`,
  `LookupLimits`): rounds of searches from one root id, compared with grouping the whole folder.
- Paging (`ThreadPaging`, `MergedPages`, `MergedFields`, `WalkedList`): pages by UID on the server, folded into one
  list in the browser while mail keeps arriving.
- Log tailer (`LogTail`, `LogTailRuns`, `LogTruncation`): chunked reads, rotation, truncation, and a saved offset, over
  whole runs with crashes.
- Automatic bans (`Cidr`, `Addresses`, `AuthEvents`, `Bans`, `BanRules`): folded attempt rows, sliding windows and networks.
- Sign-in (`RateLimit`, `Sha512Crypt`, `Sessions`, `SessionLaws`, `SessionEffects`): the throttle with its exact
  rate bound, imported SHA512-CRYPT hashes, and several accounts in one browser.
- IMAP connection, new-mail events, mail log, directory, message cache, log times (`Pool`, `NewMail`, `MailLog`, `MailStatus`,
  `MailContexts`, `MailLosses`, `Directory`, `DirectoryLaws`, `DirectoryEffects`, `LruCache`, `MessageCache`, `SyslogTime`).
- Foundations: `Text`, `Graph`, `Sorting`, `Utf8Text`, `ThreadIds`.

Where the code does less than its comments say, the model follows the code, and a lemma names the case:

- The comment on `threadUids` promises every message the list grouped into the thread. There are three ways to miss one: the
  code stops after eight rounds (`LookupLimits.LongChainIsCut`), a header search cannot find a message that has no Message-ID
  by its stand-in id (`LookupLimits.StandInReplyIsMissed`), and a subject search cannot find a message whose subject header
  does not contain its own normalized form, such as one with two blanks in a row (`LookupLimits.TwoBlanksAreMissed`).
  `ThreadLookup.ThreadUids` says that there is no fourth: a loop that ends with nothing left to search has found the whole
  thread exactly when the last two did not happen.
- The tailer's comment promises a restart that neither re-reads nor skips lines. A stop in the middle of handing over a chunk
  can do either (`LogTailRuns.StopWithinDrainIff`, `LogTailRuns.StopWithinDrainResumes`), and saving compares offsets without
  the inode (`LogTailRuns.RotatedPlaceIsForgotten`, `LogTailRuns.StopRemembersPlaceIff`). After a truncation the old record
  stands until the next save, and a crash before that can skip lines (`LogTruncation.NoticingRecordsIff`,
  `LogTruncation.StaleRecordSkips`).
- The mail log's comment promises that earlier rows stand in for a lost context. For rows that are there already they do
  (`MailLosses.KnownRowsDoNotNoticeLosses`); for recipients first tried later they do until a retry line starts a blank context
  (`MailLosses.NewRecipientAfterLossIff`, `MailLog.RetryAfterLossForgets`).
- The ban rules strip the prefix of IPv4-mapped addresses before they ask for an address, but attempts are stored under the
  text that was reported (`AuthEvents.FigureReachesFailuresIff`, `AuthEvents.MappedFailuresAreNotRead`).
- A browser is meant to remember every account signed in. A new session is cut off the list when the cookies name sixteen
  others, dead ones included (`SessionEffects.SignInTakesEffect`).
- Reading a time without a year moves February 29 once the year is over (`SyslogTime.ParsesBackIff`).
- Send-only mailboxes are refused as alias targets, but two operations get around that
  (`DirectoryLaws.MailIsLostOnlyThroughLeaks`).

Clocks, random ids, the results of IMAP searches and of password checks, inode numbers and SHA-512 itself are parameters.

## Model

| member | source | states |
|---|---|---|
| Envelopes.NormalizedHasNoNewline | apps/server/src/mail/threads.ts:15-20 | A normalized subject is a single line, so the newline in a subject key separates subject from sender without ambiguity |
| Envelopes.ReplyKeepsNormalizedSubject | apps/server/src/mail/threads.ts:15-20 | Putting "Re: " in front of a subject does not change what it is compared as |
| Envelopes.SameKeySameSubject | apps/server/src/mail/threads.ts:96-101 | Two messages with one subject key have the same normalized subject, the one the lookup searches for |
| Subjects.MarkersAreIgnored | apps/server/src/mail/threads.ts:15-20 | A reply marker does not count, whichever of the seven words it is, in whatever letter case and with whatever white space around it |
| Subjects.UnmarkedIsItsWords | apps/server/src/mail/threads.ts:15-20 | A subject that begins with no such marker is compared by its words in lower case with single blanks between them |
| Subjects.CloseIff | apps/server/src/mail/threads.ts:94-132 | Two messages share a subject link if and only if neither names another message, their normalized subjects are equal and not empty, their lower-cased senders are equal, and at most 1 209 600 000 ms lie between them |
| Subjects.LinksAre | apps/server/src/mail/threads.ts:117-132 | The links of a list of messages, said of their raw fields |
| Subjects.RepliesAreLinkedByIdsOnly | apps/server/src/mail/threads.ts:94-98 | Messages that all name others are linked by those names only |
| ThreadIds.ThreadIdRoundTrip | apps/server/src/mail/threads.ts:24-33 | A thread id decodes to exactly the root it was made from, for every text |
| ThreadIds.ThreadIdInjective | apps/server/src/mail/threads.ts:24-26 | Different roots have different thread ids |
| Forest.IdForest.Touch | apps/server/src/mail/threads.ts:118-120 | Entering an id adds it as a set of its own and leaves a known one alone; the parent map stays an acyclic forest |
| Forest.IdForest.Find | apps/server/src/mail/threads.ts:106-111 | The walk up the parent map ends at the representative of the id's set, and shortening the path changes no set |
| Forest.IdForest.Union | apps/server/src/mail/threads.ts:112-116 | The two sets become one and nothing else changes; the map stays an acyclic forest |
| Forest.SameRootIffConnected | apps/server/src/mail/threads.ts:105-123 | Two ids have the same root if and only if the unions made so far connect them |
| SubjectFallback.PassLinksAreClose | apps/server/src/mail/threads.ts:125-132 | The date-ordered pass links only messages of one subject and sender at most 14 days apart |
| SubjectFallback.PassConnects | apps/server/src/mail/threads.ts:125-132 | Any two such messages end up connected, through the consecutive ones between them |
| SubjectFallback.PassEqualsAllPairs | apps/server/src/mail/threads.ts:96-132 | The single pass over consecutive messages gives the same connected components as linking every pair at most 14 days apart |
| Grouping.JoinNamed | apps/server/src/mail/threads.ts:118-122 | One message is united with exactly the ids it names |
| Grouping.JoinById | apps/server/src/mail/threads.ts:117-123 | The first pass performs exactly the unions of the Message-ID, In-Reply-To and References links |
| Grouping.JoinBySubject | apps/server/src/mail/threads.ts:124-132 | The second pass adds exactly the unions of the subject fallback, whatever the input order |
| Grouping.FillBuckets | apps/server/src/mail/threads.ts:133-139 | There is one bucket for each component, in order of first appearance, holding its messages in input order |
| Grouping.AddUnseen | apps/server/src/mail/threads.ts:149-154 | From one message's addresses those not seen before are appended, the rest skipped |
| Grouping.Participants | apps/server/src/mail/threads.ts:146-155 | The participants are all addresses, newest message first, each only where it first appears |
| Grouping.MakeSummary | apps/server/src/mail/threads.ts:142-169 | The row of a conversation takes subject, snippet, date and answered mark from the newest message, id from the oldest, and flags from any |
| Grouping.GroupThreads | apps/server/src/mail/threads.ts:104-173 | The imperative grouping returns exactly the connected components of the links, summarized and newest first |
| ConversationLaws.RowIsComponent | apps/server/src/mail/threads.ts:104-173 | A row lists exactly the messages connected to any one it lists |
| ConversationLaws.EveryMessageIsListed | apps/server/src/mail/threads.ts:133-139 | No message is lost: each is listed by some row |
| ConversationLaws.Partition | apps/server/src/mail/threads.ts:104-173 | Two messages are in the same row if and only if they are connected, so every message is in exactly one row |
| ConversationLaws.RowIsWellMade | apps/server/src/mail/threads.ts:142-169 | A row's count is the number of messages it lists; it lists each once, oldest first, under the date of the newest |
| ConversationLaws.RowsAreNewestFirst | apps/server/src/mail/threads.ts:171 | Rows come newest first |
| ConversationLaws.EqualDatesKeepTheirOrder | apps/server/src/mail/threads.ts:142 | Messages of one date stand in their row in the order they were given in |
| ConversationLaws.EqualRowsKeepTheirOrder | apps/server/src/mail/threads.ts:171 | Of two rows of one date that comes first whose first message was given first |
| ConversationLaws.MoreMailOnlyMerges | apps/server/src/mail/threads.ts:104-173 | Adding messages can merge conversations but never splits one |
| ConversationLaws.ThreadIdsAreDistinct | apps/server/src/mail/threads.ts:145-157 | No two rows of one list share a thread id |
| ConversationLaws.ParticipantsAreDistinct | apps/server/src/mail/threads.ts:146-155 | No participant is listed twice, whatever the letter case |
| ConversationLaws.EveryoneParticipates | apps/server/src/mail/threads.ts:146-155 | Everyone who wrote or received a message is a participant, under the spelling met first |
| RowFields.RowShows | apps/server/src/mail/threads.ts:141-169 | A row has subject, snippet, date and answered mark of the newest message it lists, an id made from the oldest, and is unread, flagged or has attachments when some message it lists is or has |
| RowFields.RowParticipants | apps/server/src/mail/threads.ts:146-155 | The participants of a row are everyone who sent or received one of its messages, each once |
| RowFields.ParticipantsInOrder | apps/server/src/mail/threads.ts:146-155 | They come newest message first, in each message the sender first |
| Folder.ToEnvelope | apps/server/src/mail/threads.ts:68-84 | Every message gets a non-empty id, a stand-in made of its UID when it has none |
| Folder.StandInInjective | apps/server/src/mail/threads.ts:72 | Different UIDs have different stand-in ids |
| Folder.StandInParses | apps/server/src/mail/threads.ts:300 | The lookup recognises every stand-in id and reads back its UID |
| ThreadLookup.ThreadOf | apps/server/src/mail/threads.ts:349-357 | Among any messages, the group returned is the connected component of the root id, empty when nothing mentions it |
| ThreadLookup.LookupFindsRow | apps/server/src/mail/threads.ts:145-157 | Decoding a listed row's id and looking it up among the same messages gives back exactly that row's messages |
| ThreadLookup.Chunk | apps/server/src/mail/threads.ts:284-288 | The pieces joined give the list, and none is empty or longer than the limit |
| ThreadLookup.FindIds | apps/server/src/mail/threads.ts:314-321 | The header searches find at least every message carrying one of the ids, and no other when searches are exact |
| ThreadLookup.FindSubjects | apps/server/src/mail/threads.ts:322-325 | The subject searches find at least every message in whose lower-cased subject header one of the texts occurs, and no other when searches are exact |
| ThreadLookup.CollectTerms | apps/server/src/mail/threads.ts:331-340 | The next terms are ids and subjects of known messages, not searched before, and with those searched they cover every member |
| ThreadLookup.StartFromStandIn | apps/server/src/mail/threads.ts:300-305 | A root that is a stand-in id starts from the message it stands in for, if that message still has no id |
| ThreadLookup.BallGrows | apps/server/src/mail/threads.ts:310-341 | One round reaches every message one search step further from the root |
| ThreadLookup.RoundStaysWithin | apps/server/src/mail/threads.ts:310-341 | With exact searches one round fetches nothing more than one loose step further |
| ThreadLookup.ThreadUids | apps/server/src/mail/threads.ts:295-346 | The lookup returns ascending UIDs, all of the whole-folder thread, and the whole thread if and only if no linked message is outside. When the loop ends with no search terms left, that is so if and only if neither a message named by its stand-in id nor a subject-linked one that its own subject does not find is outside; on a folder without such messages it is always so |
| ThreadClosure.NothingOutsideIsThread | apps/server/src/mail/threads.ts:290-294 | A part of the whole-folder thread is all of it if and only if it holds the root's messages and every message linked to one it holds |
| ThreadClosure.SettledIsThreadIff | apps/server/src/mail/threads.ts:290-346 | A part of the thread that searching adds nothing to is all of it if and only if no message named by its stand-in id and no unfindable subject-linked one is outside |
| ThreadClosure.NothingHiddenIsInside | apps/server/src/mail/threads.ts:68-84 | In a folder where no message names another's stand-in id and every subject with a key finds its own message, nothing can be outside in those two ways |
| SearchRounds.RestIsForever | apps/server/src/mail/threads.ts:310-341 | Once a round of exact searches brings no new term, no later round would |
| FindableSubjects.SingleBlanksAreFindable | apps/server/src/mail/threads.ts:15-20 | A subject whose white space is single blanks contains its normalized form, so the search for that form finds it |
| FindableSubjects.TwoBlanksAreNotFound | apps/server/src/mail/threads.ts:15-20 | Two words with two blanks between them do not contain their normalized form, so the search for it misses the message |
| WholeThreads.RowIsWholeThread | apps/server/src/mail/threads.ts:104-173 | Grouping the whole folder puts into a message's row exactly the whole-folder thread around its id |
| WholeThreads.BallIsInThread | apps/server/src/mail/threads.ts:290-294 | What any number of rounds can reach lies inside the whole-folder thread |
| WholeThreads.FoundIsThreadIff | apps/server/src/mail/threads.ts:290-346 | Once one more search step reaches nothing new, what was reached is the whole thread if and only if neither a message named by its stand-in id nor an unfindable subject-linked one is outside |
| WholeThreads.RestedIsThreadIff | apps/server/src/mail/threads.ts:310-341 | The same for the rounds of exact searches, where one round fetches every message of a subject at once and groups them anew |
| WholeThreads.OpeningShowsWholeThread | apps/server/src/mail/threads.ts:295-346 | When eight steps reach all they can and nothing is outside in those two ways, opening shows exactly what grouping the whole folder would, whatever else the searches return |
| WholeThreads.ExactOpeningShowsWholeThread | apps/server/src/mail/threads.ts:295-346 | With exact searches that come to rest within eight rounds on a folder that hides nothing, opening shows the whole thread |
| LookupLimits.StandInReplyIsMissed | apps/server/src/mail/threads.ts:72 | A folder on which a reply to a stand-in id hides a message of the thread from the lookup |
| LookupLimits.LongChainIsCut | apps/server/src/mail/threads.ts:10-11 | In a chain of replies of any length the lookup from the first message misses everything from the tenth on |
| LookupLimits.TwoBlanksAreMissed | apps/server/src/mail/threads.ts:322-325 | Two messages of one sender a day apart with the same two words, two blanks apart, for a subject are one thread, and opening it shows the first only |
| LookupLimits.NewsletterIsShownWhole | apps/server/src/mail/threads.ts:310-341 | Any number of unlinked messages of one subject and sender, fourteen days apart, is shown whole |
| ThreadPaging.PageSplits | apps/server/src/mail/threads.ts:271-277 | A page and its next cursor split what lies below the cursor: nothing is lost and nothing comes back; the page holds as many messages as asked for, or all there are |
| ThreadPaging.ListThreads | apps/server/src/mail/threads.ts:261-282 | One request groups the newest messages below the cursor and returns the cursor for the rest |
| ThreadPaging.WalkCovers | apps/server/src/mail/threads.ts:261-282 | Following the cursors while mail arrives loads exactly the messages the first request saw |
| ThreadPaging.WalkPagesAreDisjoint | apps/server/src/mail/threads.ts:261-282 | No message comes back on two pages of a walk |
| MergedPages.MergePage | apps/web/src/routes/Mail.tsx:31-50 | Folding one page goes through the index of ids and gives what folding its rows one by one into the list gives |
| MergedPages.MergePages | apps/web/src/routes/Mail.tsx:27-53 | Folding all pages through the index gives what folding their rows one by one gives |
| MergedPages.RowsStandWhereTheirIdsFirstCame | apps/web/src/routes/Mail.tsx:31-50 | Of two merged rows that comes first whose id came first in the pages |
| MergedFields.MergedRowShowsNewest | apps/web/src/routes/Mail.tsx:38-41 | Date, subject, snippet, folder and answered mark of a merged row are those of the first page row of its id with the greatest date |
| MergedFields.MergedRowJoinsFlags | apps/web/src/routes/Mail.tsx:44-47 | A merged row is unread, flagged or has attachments exactly when some page row of its id is or has, and counts what they count together |
| MergedFields.MergedUidsInOrder | apps/web/src/routes/Mail.tsx:42 | It lists the messages of the page rows of its id in their order, each where it first stood |
| MergedFields.DedupInOrder | apps/web/src/routes/Mail.tsx:42 | Of two messages listed the earlier one stood before the later one ever did |
| MergedFields.MergedPeopleInOrder | apps/web/src/routes/Mail.tsx:40-43 | Its participants are those of the page rows of its id in their order, each where they first stand, whatever the letter case |
| MergedPages.MergedIdsAreDistinct | apps/web/src/routes/Mail.tsx:22-26 | Row ids are unique, whatever the pages hold |
| MergedPages.MergedRowsHold | apps/web/src/routes/Mail.tsx:41-49 | A merged row lists exactly the messages of the page rows with its id |
| MergedPages.MergedRowsCount | apps/web/src/routes/Mail.tsx:41-49 | With no message on two pages, every merged row counts exactly the messages it lists |
| MergedPages.MergedRowsPartition | apps/web/src/routes/Mail.tsx:27-53 | A message of some page is in one merged row and in no other |
| WalkedList.WalkShowsEachMessageOnce | apps/web/src/routes/Mail.tsx:22-53 | Walking all pages while mail arrives and folding them shows each message of the first request in exactly one row, with unique ids and right counts |
| WalkedList.WalkedRowInThread | apps/web/src/routes/Mail.tsx:22-53 | Every merged row lies inside one whole-folder thread of any later state of the folder |
| LogTail.SplitAnywhere | apps/server/src/activity/log-tail.ts:106-120 | Cutting the byte stream anywhere and carrying over what follows the last newline changes no line |
| LogTail.SplitAtBoundary | apps/server/src/activity/log-tail.ts:136-138 | At a line start the stream splits with nothing to carry over |
| LogTail.EndedTextsAreSplit | apps/server/src/activity/log-tail.ts:106-120 | Texts without newlines, each ended by one, come out as those texts without the carriage return they end in, the empty ones left out |
| LogTail.LogTailer.SplitLines | apps/server/src/activity/log-tail.ts:107-120 | One chunk hands over its complete non-empty lines in order and keeps the rest |
| LogTail.LogTailer.Drain | apps/server/src/activity/log-tail.ts:98-122 | However the system cuts the reads, draining hands over exactly the complete lines from the position on |
| LogTail.LogTailer.OpenFile | apps/server/src/activity/log-tail.ts:91-96 | Opening a file sets inode and offset and drops the carried part |
| LogTail.LogTailer.Save | apps/server/src/activity/log-tail.ts:134-141 | The end of the last complete line is saved, unless it was saved last or less than five seconds ago |
| LogTail.LogTailer.Poll | apps/server/src/activity/log-tail.ts:61-89 | One poll resumes, finishes a rotated file or restarts a truncated one, drains and saves; lines handed over are never taken back |
| LogTail.LogTailer.StopNow | apps/server/src/activity/log-tail.ts:53-59 | A stop saves at once and closes the file |
| LogTailRuns.PollReadsTheRest | apps/server/src/activity/log-tail.ts:61-89 | A poll hands over exactly the lines from a line start not past the covered part to the end of the file |
| LogTailRuns.NothingIsSkipped | apps/server/src/activity/log-tail.ts:15-19 | In every run with crashes at any point the saved offset is a line start with every line before it handed over, and after a finished poll every complete line has been handed over in order |
| LogTailRuns.OnlyLinesOfTheFile | apps/server/src/activity/log-tail.ts:98-122 | In every such run nothing is handed over that is not a complete line of the file |
| LogTailRuns.CleanRunIsExact | apps/server/src/activity/log-tail.ts:15-19 | In a run without crashes the lines handed over are exactly the lines of the file, in order and once |
| LogTruncation.TruncatedFileIsReadWhole | apps/server/src/activity/log-tail.ts:82-86 | A file found shorter than the position is read from its start, all its lines handed over and nothing carried over from before |
| LogTruncation.LongerFileIsReadOn | apps/server/src/activity/log-tail.ts:82-86 | A file at least as long as the position is read on from there |
| LogTruncation.RestartReadsFrom | apps/server/src/activity/log-tail.ts:70-75 | A restart resumes at the offset remembered for this file, or at its start when the file has become shorter |
| LogTruncation.NothingNewIsSkipped | apps/server/src/activity/log-tail.ts:15-19 | In every run in which the file may be truncated, once a poll has seen it shorter every complete line of the new content is handed over in order, with crashes at any point after the record was brought up to date |
| LogTruncation.NoticingRecordsIff | apps/server/src/activity/log-tail.ts:134-141 | The poll that sees the truncation brings the record up to date if and only if the last save is five seconds old or the record says so already |
| LogTruncation.StaleRecordSkips | apps/server/src/activity/log-tail.ts:134-141 | A crash before that, and a file grown back to the old offset, of which the restart skips a line |
| LogTailRuns.RotationFinishesTheOldFile | apps/server/src/activity/log-tail.ts:77-81 | At a rotation the old file is finished through its handle and the new one read from its start |
| LogTailRuns.StopRemembersPlaceIff | apps/server/src/activity/log-tail.ts:134-141 | A stop remembers the place reached if and only if that offset was not the last saved or was saved for this very file |
| LogTailRuns.RotatedPlaceIsForgotten | apps/server/src/activity/log-tail.ts:134-141 | After a rotation between any two files an orderly stop keeps the old file's record, and a restart hands all lines of the new file over again, if and only if the lines of the new file end at the offset saved last for the old one |
| LogTailRuns.StopWithinDrainIff | apps/server/src/activity/log-tail.ts:53-56 | A stop while a line of a chunk is being handed over remembers the place reached if and only if the line ends as far on as the chunk is long, or the record already says so |
| LogTailRuns.StopWithinDrainResumes | apps/server/src/activity/log-tail.ts:98-122 | The restarted tailer then hands over exactly the rest, or skips the bytes between line end and chunk length, or hands those over again, according to which is longer |
| LogTailRuns.StopWithinDrainSkips | apps/server/src/activity/log-tail.ts:53-56 | A two-line file of which a stop within the first line skips the second |
| Cidr.NestedOrDisjoint | apps/server/src/auth/bans.ts:209-215 | Two networks share an address if and only if one contains the other |
| Cidr.TouchesIffSharesAddress | apps/server/src/auth/bans.ts:132-143 | The allowlist test of a network is true if and only if some allowlisted address lies inside it |
| Cidr.SurroundingCovers | apps/server/src/auth/bans.ts:200-207 | The network around an address covers it |
| Cidr.SurroundingIs | apps/server/src/auth/bans.ts:200-207 | It holds exactly the addresses that differ from this one in the last 8 bits (IPv4) or the last 64 (IPv6) |
| Cidr.SingleCoversOnly | apps/server/src/auth/bans.ts:272 | A single-address network covers that address only |
| AuthEvents.KeyTells | apps/server/src/activity/auth-events.ts:38-41 | What is stored of an attempt: source, success, the reason of a failure, the name trimmed in lower case and cut, the address text cut |
| Addresses.PlainIsPlain | apps/server/src/auth/bans.ts:42-46 | The plain form of an address text is its own plain form |
| Addresses.MappedIsNotPlain | apps/server/src/auth/bans.ts:42-46 | An IPv4-mapped text is never plain; its plain form is the dotted address |
| AuthEvents.AuthLog.WriteAuthEvent | apps/server/src/activity/auth-events.ts:36-71 | An attempt adds to the newest row of its kind, address text included, begun within the folding window or becomes a row; the rows go on standing for exactly the attempts recorded |
| AuthEvents.CountsAddUp | apps/server/src/activity/auth-events.ts:12-14 | Folding loses nothing: the counts add up to the attempts recorded |
| AuthEvents.FoldedSumBounds | apps/server/src/activity/auth-events.ts:12-14 | The sum of counts of rows touched since a moment is at least the attempts since then and at most those since one folding window earlier |
| AuthEvents.TouchedIffAttempted | apps/server/src/activity/auth-events.ts:47-53 | Some row of a kind was touched after a moment if and only if some attempt of that kind was made after it |
| AuthEvents.FigureReachesFailuresIff | apps/server/src/auth/bans.ts:241-251 | The failures figure asked for the plain form of an address never exceeds the failures from that address, and reaches them for every window if and only if all of them were reported in plain form |
| AuthEvents.MappedFailuresAreNotRead | apps/server/src/auth/bans.ts:241-251 | Failures reported under the IPv4-mapped text leave the figure of the dotted address at zero, however many they are |
| Bans.VerdictSparesAllowlist | apps/server/src/auth/bans.ts:239-297 | Whatever the automatic rules decide to ban covers the address that failed and no address allowlisted at that moment |
| Bans.FiguresMeanAttempts | apps/server/src/auth/bans.ts:246-278 | Of the attempts stored under the text asked for, the failures figure and the figure of sign-ins to no account lie between those in the window and those in the window and ten minutes more; the accounts figure and the trust test are exact |
| Bans.NetworkFiguresAreExact | apps/server/src/auth/bans.ts:281-293 | The number of addresses of a network that tried accounts which do not exist, and whether the network is trusted, are exactly what the attempts stored under its addresses say |
| BanRules.FailuresAreCounted | apps/server/src/auth/bans.ts:197-271 | The failures counted for an address are its recorded attempts that did not succeed and were not turned away by a ban; those for no account are the ones with the reason unknown_user |
| BanRules.GuessingIsBanned | apps/server/src/auth/bans.ts:246-277 | Enough failures within the window, or failures for enough accounts without a sign-in from there within a day, and the address is banned after the evaluation |
| BanRules.FarmIsBanned | apps/server/src/auth/bans.ts:280-293 | Enough addresses of a network trying accounts that do not exist, with no sign-in from it this week and no allowlisted address in it, and the address is banned, with every address of the network unless it was banned or failed enough by itself |
| BanRules.TryingNamesIsBanned | apps/server/src/auth/bans.ts:295-297 | Enough sign-ins to no account within the slow window and none that succeeded this week, and the address is banned |
| BanRules.QuietIsSpared | apps/server/src/auth/bans.ts:246-298 | While all figures, with ten minutes more, stay below the thresholds that apply, the table stays as it was |
| BanRules.NotLookedAtIsSpared | apps/server/src/auth/bans.ts:239-245 | So it does when evaluation is off, the text is no address, or the address is allowlisted or banned already |
| BanRules.AddedBan | apps/server/src/auth/bans.ts:210-230 | What an evaluation adds is one ban of the address or its network, which no active ban contained, for the configured time, seven or thirty times that, by the number of automatic bans of the network in the last ninety days |
| Bans.EscalationNeverFalls | apps/server/src/auth/bans.ts:15-16 | Repeat bans last 1, 7, then 30 times the base, never less than an earlier one |
| Bans.BanTable.AutoBan | apps/server/src/auth/bans.ts:210-230 | A network gets the escalated ban unless an active ban already covers it |
| Bans.BanTable.EvaluateAutoBan | apps/server/src/auth/bans.ts:239-305 | The rules in the code's order lead to the verdict, and a ban follows from nothing else |
| Bans.BanTable.CreateBan | apps/server/src/auth/bans.ts:333-354 | A manual ban replaces the active ban of the same network, host bits cleared |
| Bans.BanTable.LiftBan | apps/server/src/auth/bans.ts:356-367 | Lifting by id marks that ban once and no other |
| Bans.BanTable.LiftBansFor | apps/server/src/auth/bans.ts:370-379 | Every active ban that contains the network or lies in it is lifted, and their number returned |
| Bans.LiftingFreesEveryAddress | apps/server/src/auth/bans.ts:369-379 | After lifting the bans for a network none of its addresses is banned, then or later |
| BanRules.ManualBanBans | apps/server/src/auth/bans.ts:333-354 | After a ban by hand every address of the network is banned until it ends, and no ban of another network is touched |
| BanRules.ManualBanReplaces | apps/server/src/auth/bans.ts:336-347 | A ban by hand lifts the active ban of the network, whichever of its addresses either was written with |
| BanRules.LiftingEndsOne | apps/server/src/auth/bans.ts:356-367 | A lifted ban is over for good, and no other is touched |
| Bans.StepKeepsOnePerNetwork | apps/server/src/auth/bans.ts:210-230 | No operation, at any later time, leaves two active bans of one network |
| Bans.OneBanPerNetworkAlways | apps/server/src/auth/bans.ts:210-230 | Over every run of evaluations, manual bans and lifts each network has at most one active ban |
| RateLimit.Throttle.Fail | apps/server/src/auth/ratelimit.ts:18-28 | A failure counts up within its window or begins one; the limit locks the key for fifteen minutes |
| RateLimit.Throttle.Clear | apps/server/src/auth/ratelimit.ts:30-32 | Clearing forgets the counter and the lock of the key and nothing else |
| RateLimit.Throttle.Login | apps/server/src/auth/routes.ts:44-68 | The password is looked at only when neither ban nor lock forbids it; a failure counts for both address and account, a success clears both |
| RateLimit.RunIsOrderly | apps/server/src/auth/ratelimit.ts:12-28 | In every run, since the last success of a key, a failed check counts up exactly while the window of its first one lasts, windows follow each other, and nothing is checked while a lock lasts; the stored counter and lock are what those checks leave |
| RateLimit.CheckedIff | apps/server/src/auth/routes.ts:44-55 | In every run a password is looked at if and only if the address is not banned and neither 20 failures of the address nor 8 of the account, counted in one window and not followed by a success, reached that number less than 900 seconds ago |
| RateLimit.SuccessForgets | apps/server/src/auth/routes.ts:68 | After a success address and account count from nothing again and are not locked |
| RateLimit.ManyChecksTakeLong | apps/server/src/auth/ratelimit.ts:4-6 | Any 2·limit − 1 consecutive failed checks of one key span at least fifteen minutes |
| RateLimit.ChecksPerWindowAreBounded | apps/server/src/auth/ratelimit.ts:4-28 | Without a success any half-open fifteen minutes hold at most 2·limit − 2 failed checks of a key: 14 for an account, 38 for an address |
| RateLimit.BoundIsReached | apps/server/src/auth/ratelimit.ts:4-28 | A run reaches that bound for either kind of key, so it is exact |
| Sha512Crypt.Copy | apps/server/src/auth/password.ts:62 | Copying writes the first bytes of the block behind those written before |
| Sha512Crypt.Stretch | apps/server/src/auth/password.ts:60-64 | The block is repeated and cut to the wanted length |
| Sha512Crypt.RepeatedAt | apps/server/src/auth/password.ts:60-64 | Byte i of the result is byte i modulo the block's length of the block |
| Sha512Crypt.LengthBitsAre | apps/server/src/auth/password.ts:72 | The pieces follow the binary numeral of the password's length, lowest bit first, up to the highest bit set |
| Sha512Crypt.RoundTable | apps/server/src/auth/password.ts:77-84 | The input of a round is one of eight, settled by whether 2, 3 and 7 divide its number |
| Sha512Crypt.DigestFollowsTheSteps | apps/server/src/auth/password.ts:69-84 | The digest is what the steps of the scheme, said byte by byte, lead to |
| Sha512Crypt.LetterIs | apps/server/src/auth/password.ts:36 | The letters stand in the alphabet's order |
| Sha512Crypt.ShaOfBits | apps/server/src/auth/password.ts:69-72 | The first digest takes password, salt, the stretched digest and one piece for each bit of the length, lowest first |
| Sha512Crypt.RunRounds | apps/server/src/auth/password.ts:77-84 | The rounds mix digest, salt and password in the order their number prescribes |
| Sha512Crypt.PrintDigest | apps/server/src/auth/password.ts:86-92 | The digest is printed group by group in the prescribed byte order |
| Sha512Crypt.Sha512CryptText | apps/server/src/auth/password.ts:53-95 | The stored form is the prefix, the salt and the printed digest of the whole computation |
| Sha512Crypt.OrderIsRotated | apps/server/src/auth/password.ts:37-42 | The byte order takes bytes g, g + 21 and g + 42, rotated by g modulo 3, and so is a permutation |
| Sha512Crypt.DigestRoundTrip | apps/server/src/auth/password.ts:86-92 | Every byte of the digest can be read back from its printed form |
| Sha512Crypt.EncodeInjective | apps/server/src/auth/password.ts:86-92 | Different digests print differently |
| Sha512Crypt.EncodedIsLetters | apps/server/src/auth/password.ts:36-45 | The printed digest is 86 letters of the alphabet, as the parser demands |
| Sha512Crypt.ParsePrinted | apps/server/src/auth/password.ts:44-47 | A stored hash is parsed back to the salt and rounds it was made with |
| Sha512Crypt.VerifySha512Crypt | apps/server/src/auth/password.ts:44-51 | A password verifies when the hash recomputed with the parsed salt and clamped rounds is the stored text |
| Sha512Crypt.VerifiesIffSameDigest | apps/server/src/auth/password.ts:44-95 | A hash made with a salt of at most 16 characters without dollar sign and rounds in range verifies exactly the passwords of the same digest, its own among them |
| Sha512Crypt.OddRoundsNeverVerify | apps/server/src/auth/password.ts:44-51 | A stored hash with rounds written otherwise than in plain decimal within the limits verifies no password |
| Sessions.Resolve | apps/server/src/auth/session.ts:66-80 | The live sessions among the ids, one for each mailbox, in the order given |
| Sessions.Browser.LoadAccounts | apps/server/src/auth/session.ts:125-135 | Dead ids drop out of the cookie and the remaining sessions are prolonged |
| Sessions.Browser.CreateSession | apps/server/src/auth/session.ts:82-98 | A new session replaces the browser's earlier ones of that mailbox and becomes the active one |
| Sessions.Browser.Login | apps/server/src/auth/routes.ts:69-78 | A sign-in is refused when five other mailboxes are signed in, otherwise it adds its session |
| Sessions.Browser.SwitchSession | apps/server/src/auth/session.ts:138-143 | The live session of the mailbox becomes active, if there is one |
| Sessions.Browser.DestroySession | apps/server/src/auth/session.ts:149-162 | The chosen sessions are deleted and the cookies name those left |
| SessionLaws.SessionsStayApart | apps/server/src/auth/session.ts:82-98 | In every run the sessions a browser names belong to pairwise different mailboxes |
| SessionEffects.LiveIff | apps/server/src/auth/session.ts:66-80 | A session is among the accounts exactly when it has not expired, its mailbox may sign in, and no session before it in the list counts for the same mailbox |
| SessionEffects.NamedAreRead | apps/server/src/auth/session.ts:51-58 | A request names the sessions of the accounts cookie and the active one, listed or not |
| SessionEffects.LoadProlongs | apps/server/src/auth/session.ts:125-135 | After the accounts were loaded each of their sessions runs for 29 days at least, and no other row is changed |
| SessionEffects.LoadTidies | apps/server/src/auth/session.ts:125-135 | Loading writes the live sessions into the accounts cookie whenever it named others too, and never anything else |
| SessionEffects.SwitchTakesEffect | apps/server/src/auth/session.ts:138-143 | Switching makes the live session of the mailbox active, if there is one, and otherwise changes nothing |
| SessionEffects.SignInTakesEffect | apps/server/src/auth/session.ts:82-98 | After a sign-in its session is active and runs for 30 days; it stands on the list behind the accounts signed in before, less the one of the same mailbox, if and only if the browser names fewer than 16 other sessions |
| SessionEffects.TurnedAwayIff | apps/server/src/auth/routes.ts:69-72 | A sign-in is turned away exactly when five accounts or more are signed in and none of them is the mailbox; the active one stays |
| SessionEffects.SignOutEnds | apps/server/src/auth/session.ts:149-162 | Signing out ends exactly the sessions the browser names, the active one, or the live one of the mailbox; after signing out of everything no account is left |
| SessionLaws.SignOutRemovesOnlyTheChosen | apps/server/src/auth/session.ts:145-162 | Signing out removes exactly the chosen accounts, keeps the others in order, and keeps the active one or makes the first remaining active |
| SessionLaws.OneAccountIsDoomed | apps/server/src/auth/session.ts:154 | Signing out of a mailbox chooses one session at most, and one of that mailbox |
| SessionLaws.NeverMoreThanFive | apps/server/src/auth/routes.ts:69-72 | As long as nothing disabled is enabled again a browser is never signed in to more than five mailboxes |
| Pool.StepKeepsOneAtATime | apps/server/src/mail/pool.ts:56-89 | Every event keeps each call chained to the one before it, all calls before one settled, all after it waiting, and at most one connect in flight |
| Pool.CallbacksNeverOverlap | apps/server/src/mail/pool.ts:76-89 | In every interleaving at most one call is connecting or in its callback, callbacks begin in call order, and at most one connect is in flight |
| Pool.NoCallIsStuck | apps/server/src/mail/pool.ts:76-89 | As long as a call is not settled some step of it or of one before it can be taken |
| Pool.FailureFreesTheNext | apps/server/src/mail/pool.ts:87 | A failed connect or callback lets the next call begin |
| NewMail.Announcer.Scan | apps/server/src/mail/events.ts:81-92 | A scan announces what it found at or above its start, in the order met, and the next scan starts behind it |
| NewMail.ScannedIff | apps/server/src/mail/events.ts:84-89 | In whatever order a response comes, exactly the messages from the start on that come after lower ones only are announced |
| NewMail.EachArrivalIsAnnouncedOnce | apps/server/src/mail/events.ts:69-92 | Over every run of scans, with mail arriving and vanishing in between, exactly the messages that arrived since the mailbox was opened and were there at some scan are announced, once each and in order |
| MailLog.Ingest.Note | apps/server/src/activity/mail-log.ts:167-191 | A line about a message changes that message's context as its kind prescribes |
| MailLog.Ingest.ContextFromDb | apps/server/src/activity/mail-log.ts:149-165 | A lost context is rebuilt from the oldest row of the message |
| MailLog.Ingest.Write | apps/server/src/activity/mail-log.ts:102-146 | An offered row is inserted, or merged into the row of the same queue id and recipient |
| MailLog.Ingest.Apply | apps/server/src/activity/mail-log.ts:167-250 | One line at a time, contexts and rows become what the line function says, whose runs the laws below are about; probes and unknown words change nothing |
| MailLog.RowsTellTheirHistory | apps/server/src/activity/mail-log.ts:102-146 | For any lines, with contexts lost at any points, a recipient of a message has one row: attempts count its delivery and reject lines, direction, sender, source and first-seen time are those of the first, every other fact the first that was known, the outcome the last |
| MailStatus.StatusFollows | apps/server/src/activity/mail-log.ts:102-146 | In every run the status and time of a recipient's row are those of the last line that reported on it, unless that put the mail off and the message was closed since; then they are those of the first line that closed it. The outcome is that of the last report |
| MailStatus.SettledOnce | apps/server/src/activity/mail-log.ts:102-146 | There is only one such line and one such word |
| MailStatus.RowIffReported | apps/server/src/activity/mail-log.ts:102-146 | A recipient has a row exactly when some line reported on it, and its attempts are the number of those lines |
| MailContexts.ContextSays | apps/server/src/activity/mail-log.ts:167-191 | A context says, as long as it lasts, the last message id, the first subject, the last sender, size and client, and how and when the mail came in last |
| MailContexts.SourcesAre | apps/server/src/activity/postfix-parse.ts:44-57 | The source of a message is that of its service, local for any but the four |
| MailContexts.OriginsAre | apps/server/src/activity/mail-log.ts:102-146 | A refusal names sender, host and address itself, a delivery takes them from the context; the first-seen time is the context's |
| MailContexts.DirectionsAre | apps/server/src/activity/mail-log.ts:202-247 | A row's direction follows from the transport, the recipient being local, and the way the mail came in |
| MailLog.RefusalsAreKeptApart | apps/server/src/activity/mail-log.ts:225-247 | Refusals without queue id are never merged: each stays a row of its own, in order and unchanged |
| MailLog.FirstSubjectStays | apps/server/src/activity/mail-log.ts:182-185 | While its context lasts a message keeps the first subject logged for it |
| MailLog.FirstDeliveryIsFaithful | apps/server/src/activity/mail-log.ts:202-224 | The first delivery line of a message leaves its row and its context saying the same |
| MailLog.HarmlessStep | apps/server/src/activity/mail-log.ts:148-165 | As long as no line tells about the message anew, its context and the oldest row go on saying the same |
| MailLog.LostContextsDoNotShow | apps/server/src/activity/mail-log.ts:148-165 | From the first delivery on, losing contexts at any points leaves all rows of the message the same, unless a line tells about the message anew |
| MailLosses.NewRowKnowsAll | apps/server/src/activity/mail-log.ts:202-224 | A row made by a delivery while nothing was lost knows everything the context and the oldest row say |
| MailLosses.KnownRowsDoNotNoticeLosses | apps/server/src/activity/mail-log.ts:148-191 | Such a row comes out the same however contexts are lost, as long as no line says something it does not know; a retry naming sender and size again is no such line |
| MailLosses.NewRecipientAfterLossIff | apps/server/src/activity/mail-log.ts:148-191 | A recipient first tried later gets the row it would have got without losses if and only if no retry has started a blank context, or the oldest row has no message id, subject, client, user or source and was first seen when that retry was |
| MailLosses.BlankIff | apps/server/src/activity/mail-log.ts:186-191 | The context is blank exactly when a retry found it gone, no delivery having come since the loss, and it was not lost again |
| MailLog.RetryAfterLossForgets | apps/server/src/activity/mail-log.ts:186-191 | A retry after a loss names sender and size first; a recipient first tried then is filed without the message id, subject, client and user the older rows have |
| Directory.Service.CreateMailbox | apps/server/src/admin/service.ts:116-137 | A mailbox is created unless a mailbox or an alias already has the address |
| Directory.Service.UpdateMailbox | apps/server/src/admin/service.ts:145-165 | An update is refused when it would remove the last administrator or make an alias target send-only; otherwise it changes the named fields |
| Directory.Service.DeleteMailbox | apps/server/src/admin/service.ts:167-170 | A mailbox is deleted unless it is the last administrator |
| Directory.Service.DeleteDomain | apps/server/src/admin/service.ts:94-100 | A domain goes with its mailboxes and aliases unless it holds the only administrators |
| Directory.Service.SetCatchAll | apps/server/src/admin/service.ts:109-114 | The catch-all of the domain is replaced or removed; a send-only target is refused |
| Directory.Service.CreateAlias | apps/server/src/admin/service.ts:172-179 | An alias is created unless its source is a mailbox, its own target, already an alias to it, or the target is send-only |
| Directory.Service.ApplyReportAddresses | apps/server/src/admin/setup-steps.ts:84-113 | Missing report addresses are forwarded, the disabled alias turned back on where there is one; a blocked address or a bad target refuses the whole run |
| DirectoryEffects.CreatingAMailbox | apps/server/src/admin/service.ts:116-143 | A created mailbox has what was asked for and nothing else changes; it is refused exactly when a mailbox or an alias has the address |
| DirectoryEffects.UpdatingAMailbox | apps/server/src/admin/service.ts:145-165 | An updated mailbox has the requested fields, the rest as before; the update is refused exactly when it takes the only administrator away or stops the target of an active alias from receiving |
| DirectoryEffects.DeletingAMailbox | apps/server/src/admin/service.ts:167-170 | A deleted mailbox is gone and no other; exactly the only administrator is refused |
| DirectoryEffects.CreatingAndSwitchingADomain | apps/server/src/admin/service.ts:79-87 | A created domain is active under its name, unless one has the name; switching changes that and nothing else |
| DirectoryEffects.DeletingADomain | apps/server/src/admin/service.ts:94-100 | A deleted domain takes exactly its mailboxes and aliases along; it is refused exactly when all administrators who may sign in are there |
| DirectoryEffects.CreatingAnAlias | apps/server/src/admin/service.ts:172-179 | A created alias has what was asked for; the four reasons it is refused for are all there are |
| DirectoryEffects.UpdatingAnAlias | apps/server/src/admin/routes.ts:178-188 | An updated alias has the requested fields; it is refused exactly when a new target takes no mail or another alias has this source and target |
| DirectoryEffects.DeletingAnAlias | apps/server/src/admin/routes.ts:190-196 | A deleted alias is gone and no other |
| DirectoryEffects.SettingTheCatchAll | apps/server/src/admin/service.ts:109-114 | The domain's catch-all is what was asked for, or none, and no other alias is touched; exactly a target that takes no mail is refused |
| DirectoryEffects.ReportsAreRefusedIff | apps/server/src/admin/setup-steps.ts:84-99 | The report addresses are refused exactly when one is a mailbox that takes no mail, the mailbox wanted for them cannot be made, or the target wanted for them does not do |
| DirectoryLaws.AddressesNeverClash | apps/server/src/admin/service.ts:122-174 | Over every run of the operations no address is both a mailbox and the source of an alias |
| DirectoryLaws.AnAdminAlwaysRemains | apps/server/src/admin/service.ts:94-170 | Over every run, once there is an active administrator there always is one |
| DirectoryLaws.StepKeepsValid | apps/server/src/admin/service.ts:94-179 | Every operation keeps names, addresses and alias pairs unique and every mailbox and alias within its domain |
| DirectoryLaws.ReportsDeliverOnceApplied | apps/server/src/admin/setup-steps.ts:80-113 | After a successful run every report address of every active domain delivers, and a second run adds none |
| DirectoryLaws.MailIsLostOnlyThroughLeaks | apps/server/src/admin/routes.ts:178-188 | No operation leaves an active alias pointing at a send-only mailbox, except exactly re-enabling a disabled alias and creating a send-only mailbox behind an active one |
| DirectoryLaws.ReportTargetReceives | apps/server/src/admin/setup-steps.ts:91-95 | The target accepted for the reports is never a send-only mailbox |
| LruCache.Lru.Get | apps/server/src/mail/lru.ts:7-14 | A hit returns the value and makes the key the most recently used; a miss changes nothing |
| LruCache.Lru.Set | apps/server/src/mail/lru.ts:15-22 | The value is stored as most recently used and the keys used longest ago are dropped down to the bound |
| LruCache.Lru.Delete | apps/server/src/mail/lru.ts:23-25 | The key is removed and the order of the others kept |
| LruCache.EvictedOnlyWhenCrowded | apps/server/src/mail/lru.ts:15-22 | In every run the bound holds, and a key used and not deleted since is gone only if at least the bound's number of other keys was used after it |
| LruCache.CachedIffRecent | apps/server/src/mail/lru.ts:7-22 | Without deletes a key is cached if and only if fewer other keys than the bound were used after its last use |
| MessageCache.KeysAreDistinct | apps/server/src/mail/message.ts:9 | Different user, folder or UID means a different cache key |
| MessageCache.FlagsShow | apps/server/src/mail/message.ts:20-34 | A message is unread without the flag Seen; flagged, answered and draft are the flags of those names, read fresh or remembered |
| MessageCache.Loader.LoadMessage | apps/server/src/mail/message.ts:49-65 | Through the cache a message comes out as an uncached load returns it, with current flags, or not found; an expunged one leaves the cache |
| MessageCache.Loader.Keep | apps/server/src/mail/message.ts:63 | The message is cached under its place's key, and every cached body stays that of its place |
| MessageCache.Loader.LoadMessages | apps/server/src/mail/message.ts:71-93 | The list is what uncached loads return, in order, except that messages expunged during the call may be left out |
| MessageCache.Loader.Invalidate | apps/server/src/mail/message.ts:67-69 | Invalidating removes the message from the cache |
| SyslogTime.ParsesBackIff | apps/server/src/activity/postfix-parse.ts:12-20 | A time less than 363 days back, printed without its year, is read back as it was, across year ends and leap years, if and only if it is not a leap day of the year before |
| SyslogTime.LeapDayMoves | apps/server/src/activity/postfix-parse.ts:16-18 | A leap day read in the following year comes out as another day |
| SyslogTime.RecentYears | apps/server/src/activity/postfix-parse.ts:17-18 | A time less than 363 days back lies in this year or the last |

## Left out

- ThreadLookup.ThreadUids: an empty root id, which no listed row decodes to, is not covered; searches are any supersets of the true matches, and the folder does not change during one lookup. Subject headers are taken as decoded.
- ThreadLookup.ThreadOf: likewise assumes a root id that is not empty.
- ThreadPaging.WalkCovers: messages expunged during a walk are not modelled, nor the text search of the list.
- LogTail.LogTailer.Drain: lines are kept as bytes; decoding them and the errors of the callback are left out. Each poll sees one state of the files; a stop inside a drain is taken as the end of that process's reading: lines of the same chunk that it may still hand over are not counted.
- LogTailRuns.NothingIsSkipped: the run is over one file that only grows; truncation has its runs in `LogTruncation`, rotation is covered for one poll by `LogTail.LogTailer.Poll` and `LogTailRuns.RotationFinishesTheOldFile`.
- Bans.BanTable.EvaluateAutoBan: evaluations run one after the other; the set of addresses under evaluation, the fifteen-second caches, hit counts and ban reasons are left out.
- RateLimit.ChecksPerWindowAreBounded: sign-ins are handled one at a time on a clock of whole seconds; Redis rounds the remaining time of a lock to seconds, and unlocking by an administrator is not part of a run.
- Sha512Crypt.VerifiesIffSameDigest: SHA-512 is any function with 64-byte results, so that different passwords have different digests is not claimed; characters outside the basic plane count once in the salt limit.
- Sessions.Browser.Login: rehashing an imported password and the audit trail are left out; so is the prolonging of the active session by ordinary requests.
- Pool.NoCallIsStuck: evicting connections of one user and the idle sweep appear only as the connection being dropped.
- NewMail.EachArrivalIsAnnouncedOnce: scans follow each other, which the queue in `mail/events.ts` brings about in the way `Pool` models; responses come in ascending order, and flags and folder events are left out.
- MailLog.RowsTellTheirHistory: deleting old rows after the retention time is left out; whether an address is local is part of each line, subjects are taken as already decoded.
- Directory.Service.ApplyReportAddresses: passwords, display names, quotas and DKIM keys are left out; the order in which active domains are listed is any order.
- Directory.Service.CreateMailbox: operations run one at a time, so two racing requests are left to the unique indexes of the database.
- MessageCache.Loader.LoadMessage: a place always names the same bytes (RFC 3501, section 2.3.1.1) and the parsed body does not depend on flags or on the time of parsing; the code takes the time of parsing as the date of a message that has none.
- SyslogTime.ParsesBackIff: local time without daylight saving; stamps with hours, minutes or seconds out of range do not occur.
- Grouping.GroupThreads: lower case covers ASCII letters; dates are compared as numbers, which agrees with their ISO text for the years 0 to 9999; the snippet and the attachment mark of a message are given.
- Bans.Verdict: reading an address or network text as a network is any partial function, as the database's `inet` type gives it; allowlist entries that do not parse are left out.
- Previews, HTML-to-text, MIME parsing and the classification of log lines: text heuristics without a specification.
- Status pages, spam filter, DNS checks, queue control, command line and the user interface except the folding of pages.
