# A verified model of smtp-store

smtp-store accepts mail from cameras over SMTP, keeps it in a durable spool, stores bodies and
attachments in dated folders, classifies the videos among them in the background, and shows the
result in a small web interface. This project models the parts of it whose correctness spans many
steps, and proves what they promise.

| file | models |
|---|---|
| `SpoolMachine`, `SpoolBound`, `SpoolWithin`, `SpoolStarts`, `SpoolOrder`, `SpoolRounds`, `SpoolLimits` | the spool as atomic file-system steps of one enqueuer and one worker, interleaved in any way, with failing steps and process crashes; its byte bound and the starts that keep it, its order, its rounds, and runs that show what the results need |
| `SpoolQueue`, `Smtp` | the methods of the queue as a class over those steps, with the worker running in between, and the SMTP session in front |
| `Delivery` | spool and store together, from the accepted message to its files |
| `SpoolItem`, `CivilTime` | the bytes of a spool item, RFC 3339 times, and item names that sort by time |
| `StoreMachine`, `Store`, `StorageNames`, `Recipient` | concurrent stores into one directory, the collision loop, the names they make up, the recipient's folder |
| `ClassifyQueue` | the reservation set and bounded channel shared by producers and classification workers |
| `Retry`, `Detections`, `Sidecars` | the retry loop with its sidecar history, the normalisation of detections, and what the flags, the status and the MQTT event type say about them |
| `FileIndex`, `RecentFiles` | the metadata index and the directory walk it replaces |
| `Token`, `Encoding`, `Int64` | session tokens down to base64url, hexadecimal and decimal |
| `Paths` | percent-encoded links and the resolver for request paths |
| `HumanSize` | the loop that scales a file size |
| `Text`, `Sorting`, `Listing` | Go's string functions, `sort.Slice`, directory listings |

Strings stand for byte strings, one character a byte. White space, letters and case are ASCII,
except in the recipient's folder, where a character is a Unicode character. Failures, cancellation
and scheduling are nondeterministic choices, so every statement covers all of them. A flag `calm` of
some methods stands for a call that nothing disturbs; what they achieve then is stated as well, so
that none of them can fail without a reason. A state machine's step is one system call, one critical
section or one channel operation of the program. Where a property needs an assumption about the
surroundings it is a precondition: that the worker's renames succeed, that the tree does not change
during a walk, that item names are new. New means more than absent from the four directories: the
name of an item that has left the spool is not used again either, or its stores would be counted
together with the new item's.

## What is proved

**Spool.** In every reachable state each message whose `Enqueue` returned a name is in exactly one of
pending, processing and failed with its own bytes, or was stored with them. Stored means that a call of
the store has returned, so body and attachments are intact in the right folder (`Delivery`). A message
is stored at most once more than the process has restarted since. The byte limit holds up to one
metadata line and, because the worker can carry items past the directory walk, up to what processing
can hold. With a worker whose renames succeed that is the larger of the largest item and of what
processing held at the start. Which starts keep the bound with the largest item alone is settled both
ways, see below; one run reaches it exactly. A further run shows that a reused name loses a message.
Every published item is named by the UTC form of the time inside it, and `Flush` takes items in the
order of those times, whatever their zones. It ends whenever only finitely many claims fail, and when
it reports the directory drained, no item published since the start is left in it. An undisturbed
`Enqueue` answers full exactly when load and message exceed the limit, and otherwise adds the item and
changes nothing else.

**Store.** A stored message is a body file and one file for each attachment, in the recipient's
folder for year, month and day, under the time of day. Whatever calls and classifier writes come
later, a successful call's body and attachments keep their bytes. The collision loop claims the
least free name within one attempt more than there are files.

**Classification.** The set of queued paths is at all times the disjoint union of reserved, waiting and
held paths. A retry run writes pending 0, 1, ..., k and then one terminal record. The flags, the
status, the event type and the notification guard mean the same thing for every normalised result.

**Web interface.** Index and walk show the same times at the same positions and the same facts about
the same file, and a video shows as failed, skipped, pending or detected exactly as its record says.
A session token lets its user in exactly until its expiry, and only while that user is configured. A
link leads back to its file exactly under a condition on the path.

Where the code falls short of what one would expect, the exact condition is stated:

- A login name with a vertical bar gets a token that is never accepted (`Token.RoundTrip`).
- A path with a `%`, all of whose `%` begin escapes, is unescaped a second time and does not resolve
  to itself; with a `%` that begins none it does (`Paths.LinkRoundTrip`).
- The index row is updated even when the sidecar could not be written; index and tree then agree only
  if both sidecars show the same (`FileIndex.LostWriteBreaksSync`).
- After a backfill the index matches the tree exactly if it held no row for anything else, since rows
  are never deleted (`FileIndex.Index.Backfill`).
- A failed claim counts as progress, so the worker can retry one item without end
  (`SpoolRounds.FailedClaimsSpin`). On any run its rounds are at most the items at the start plus the
  failed claims, the items that come back or arrive, the crashes, and one
  (`SpoolRounds.RoundsAreBounded`), so they are unbounded exactly when those are.
- The quadratic backoff is right exactly up to attempt 96038 (`Retry.BackoffExact`), and a failed run
  sleeps the sum of squares exactly when retryMax is at most that (`Retry.GaveUpSleeps`).
- The byte bound of limit, line and largest item is kept, over all limits and all runs in which the
  worker's renames succeed, from exactly those starts whose processing weighs no more than the largest
  item (`SpoolStarts.BoundIsExact`). Over the limits that the start is within, it is kept from exactly
  those whose processing weighs no more than that with any one item that has bytes left out
  (`SpoolStarts.LimitIsExact`). `SpoolBound.LoadStaysBounded` is the bound for every failure.
- A successful job writes a thumbnail that nobody indexes; index and tree then agree exactly if a row
  for an earlier thumbnail still fits (`FileIndex.ThumbnailBreaksSync`).
- The index says `unknown` where the walk shows a blank recipient (`RecentFiles.SameEntry`).

## Model

| member | source | states |
|---|---|---|
| SpoolMachine.NoAcceptedMessageIsLost | internal/spool/spool.go:70-223 | In every state of every interleaving with crashes and failed steps, an accepted message is in exactly one directory with the bytes promised, or in none and was stored with them. |
| SpoolMachine.ReceiptsStand | internal/spool/spool.go:118-122 | A name once returned to the caller keeps meaning the same bytes for ever. |
| SpoolMachine.DuplicationIsBounded | internal/spool/spool.go:164-223 | An accepted message is stored at most once more than the process has restarted since it was accepted, each time with its own bytes, failed removes included. |
| SpoolMachine.PostsFollowStores | internal/spool/spool.go:197-204 | postStore is called at most once per successful store, and exactly once in a run without a crash and with a handler. |
| SpoolMachine.StepKeepsInv | internal/spool/spool.go:70-223 | One step of either side keeps the invariant behind these results: no item in two directories, bytes equal to those published, stores counted against restarts. |
| SpoolMachine.RunKeepsInv | internal/spool/spool.go:125-223 | The invariant holds in every reachable state. |
| SpoolBound.StepKeepsLone | internal/spool/spool.go:164-223 | While the worker's renames and removes succeed, processing holds nothing but the item in hand. |
| SpoolBound.LoadStaysBounded | internal/spool/spool.go:74-82 | On every run, whatever fails and whatever the start: pending plus processing never exceed what they were at first or, if that is more, the limit plus one metadata line, plus what processing can hold when the two directories are measured one after the other. |
| SpoolBound.SpoolStaysBounded | internal/spool/spool.go:74-82 | If the worker's renames and removes succeed, what comes on top is at most the largest item or what processing held at the start: the largest item alone if processing held no more; with an atomic measurement nothing comes on top, without any condition. |
| SpoolBound.ListPendingKnows | internal/spool/spool.go:251-274 | What a listing of pending misses of the two directories weighs no more than processing. |
| SpoolBound.AdmitKnows | internal/spool/spool.go:79-81 | Passing the size check bounds the real load up to what was missed. |
| SpoolBound.RunMeasures | internal/spool/spool.go:251-274 | In every reachable state the running total of the walk is the bytes of the items it has listed and measured. |
| SpoolBound.ListingsMeasureLoad | internal/spool/spool.go:251-274 | At rest, listing and measuring both directories gives exactly the load. |
| SpoolLimits.OvertakenWalkReachesTheBound | internal/spool/spool.go:251-274 | A run in which the load is exactly limit plus line plus largest item. |
| SpoolStarts.BoundIsExact | internal/spool/spool.go:74-82 | Over all limits and all runs with a succeeding worker, limit plus line plus largest item (or the load at the start) is never exceeded if and only if processing weighs no more than the largest item at the start. |
| SpoolStarts.LimitIsExact | internal/spool/spool.go:74-82 | For the limits the start is within: if and only if processing, with any one non-empty item left out, weighs no more than the largest item. |
| SpoolStarts.HeavyStartBreaksTheBound | internal/spool/spool.go:207-223 | For every start whose processing outweighs the largest item there is a limit and a run, every worker step succeeding, that exceeds the bound. |
| SpoolStarts.CrowdedStartBreaksTheLimit | internal/spool/spool.go:207-274 | For every start whose processing still outweighs the largest item with some non-empty item left out, there is a limit it is within and a run of two Enqueues that exceeds the bound. |
| SpoolStarts.MissingEnqueue | internal/spool/spool.go:70-123 | At any point of recovery there is a whole Enqueue during which the next k items come back unseen, so that the limit hears nothing of them. |
| SpoolWithin.SpareStartStaysWithin | internal/spool/spool.go:74-82 | From a start within its limit whose processing, with any one non-empty item left out, weighs no more than the largest item, limit plus line plus largest item is never exceeded. |
| SpoolLimits.ReusedNameLosesAMessage | internal/spool/spool.go:118-122 | A run in which a name is used twice and an accepted message disappears unstored: fresh names are needed. |
| SpoolQueue.Queue.Admission | internal/spool/spool.go:251-274 | The measurement by two listings and one stat per file, and its comparison with the limit, as steps of the machine that publish and accept nothing. Undisturbed it is refused exactly when load and message exceed the limit. |
| SpoolQueue.Queue.Enqueue | internal/spool/spool.go:70-123 | With the worker running in between and any step failing: success adds exactly one receipt, for exactly these bytes, under the name made from the time of receipt, which was not accepted before; failure adds none. Full means that at the end of the walk the items measured and the message together exceeded a limit. Undisturbed the answer is full exactly when load and message exceed a limit; otherwise pending has gained the item, and nothing else has changed. |
| SpoolQueue.Queue.RecoverProcessing | internal/spool/spool.go:207-223 | The listed items divide into those moved, which are in pending with their bytes, and those whose rename failed, which stay; processing is empty if none failed, and none does unless a rename or the listing fails. |
| SpoolQueue.Queue.NextPending | internal/spool/spool.go:225-242 | The least name in pending that ends in .eml, before every other such name, or the knowledge that there is none. |
| SpoolQueue.Queue.ProcessOne | internal/spool/spool.go:164-205 | The result is false exactly when storage was unavailable. A failed claim changes nothing. Otherwise a stored item is recorded with its bytes and announced and a rejected one goes to failed with its bytes; each has left processing exactly if the remove or rename worked, and an item storage was unavailable for is back in pending exactly if that rename worked. |
| SpoolQueue.Queue.Flush | internal/spool/spool.go:146-162 | Ends within as many rounds as there were items and failed claims; takes items in name order, each once, and in the order of their receipt times; every item enqueued since the start has such a time. Unless cancelled, unable to read the directory, or stopped at an unavailable item, which is back under its old name with its bytes if the rename worked, it leaves no item in pending that was published since the start and nothing with the ending .eml, and every item taken is stored, in failed or in processing with its bytes. Undisturbed it drains the directory and leaves processing as it was. |
| SpoolOrder.ItemNamesAreTaken | internal/spool/spool.go:84-86 | For every time and suffix the name Enqueue makes is the UTC stamp, a dash, the suffix and .eml, which is the ending the worker looks for. |
| SpoolOrder.NamesCarryTimes | internal/spool/spool.go:84-118 | In every reachable state, each item published since the start is named by the UTC stamp of the receipt time its own bytes give. |
| SpoolOrder.NameOrderIsTimeOrder | internal/spool/spool.go:225-242 | Items in name order are in non-decreasing order of the receipt times inside them, in any zones, for UTC years of four digits. |
| SpoolOrder.OrderIsOfReceipts | internal/spool/spool.go:225-242 | Of two items as Enqueue writes and names them, in any zones, the one taken earlier was received no later. |
| SpoolRounds.RoundsAreBounded | internal/spool/spool.go:146-205 | On any run at all the worker begins at most as many rounds as there were items, failed claims, items that came back or arrived, and crashes, and one. |
| SpoolRounds.FailedClaimsSpin | internal/spool/spool.go:167-172 | For every k there is a run of k rounds and k failed claims that ends in the state it began in. |
| Smtp.Session.Authenticate | internal/smtpserver/server.go:141-153 | Succeeds exactly for a known user with that password; only then does the session change. |
| Smtp.Session.Mail | internal/smtpserver/server.go:155-168 | Records the trimmed sender exactly when authenticated. |
| Smtp.Session.Rcpt | internal/smtpserver/server.go:170-179 | Appends exactly the non-blank recipients. |
| Smtp.Session.Data | internal/smtpserver/server.go:181-244 | Success means a known user, recipients, and a receipt in the spool for exactly these bytes or, without a spool, a folder in which a body file holds the parsed body and a file under its own extension each attachment; every other answer has the code of its cause and leaves nothing accepted. With nothing failing, a message of a logged-in user is refused only by the limit or because it does not parse. |
| Smtp.DataSuccessIsCovered | internal/smtpserver/server.go:203-218 | However spool and archive run on after a successful Data, the message is in one spool directory, from which the raw bytes and the time can be read back, or complete in its recipient's folder. |
| Delivery.AcceptedIsSpooledOrArchived | internal/spool/spool.go:164-205 | In every interleaving of enqueuer, worker, stores, classifier, failures and crashes: an accepted message is in one spool directory and no other with its bytes, or its body and every attachment under its own extension are intact in its recipient's folder for the day of receipt. |
| Delivery.RunKeepsInv | internal/spool/spool.go:185-197 | Every store the worker counts as kept is a finished call for the item in hand, and stays so. |
| Delivery.RunKeepsReceipts | internal/spool/spool.go:118-122 | So it is from any such state on, and receipts stand. |
| Delivery.InArchiveIs | internal/storage/storage.go:101-142 | What intact in the folder means: a file ending in .txt with the parsed body, and for each attachment a file with its number, its extension and its bytes. |
| Delivery.ClaimedCanBeArchived | internal/spool/spool.go:164-205 | From any reachable state in which a readable, parsable item is claimed, whatever the folders hold, some steps of its own lead to its being stored. |
| SpoolItem.ReadBack | internal/spool/spool.go:284-305 | Enqueue writes one line of JSON with the time and then the raw message; reading gives exactly the raw message, newlines included, and the time field by field. |
| SpoolItem.ReadItemIs | internal/spool/spool.go:284-305 | A content is read as a given time text and message if and only if it is a line with that metadata, up to white space around it, and the message after it. |
| SpoolItem.SpooledPlaceIsDirectPlace | internal/storage/storage.go:108-121 | A message gets the same date folder and base name by way of the spool as directly. |
| SpoolItem.PlaceIs | internal/storage/storage.go:109-121 | Year, month and day are the three segments of the date folder, and hour, minute and second the six digits of the base name. |
| SpoolItem.MetaLineIsShort | internal/spool/spool.go:92-99 | The metadata line has at most 54 bytes: the constant of the byte bound. |
| SpoolItem.NamesFollowTime | internal/spool/spool.go:276-282 | Item names sort by time of receipt, whatever the zones and whatever follows the stamp. |
| CivilTime.UtcKeepsInstant | internal/spool/spool.go:276-282 | The UTC form of a time is a valid time at offset zero and the same instant, over day, month and year ends. |
| CivilTime.UtcStampsFollowTime | internal/spool/spool.go:276-282 | The stamps of times in any zones compare as strings exactly as the instants do. |
| CivilTime.ParseOfFormat | internal/spool/spool.go:92-180 | Parsing an RFC 3339 time with stripped fraction zeros gives back every field, the nanoseconds and the offset. |
| CivilTime.ParseIsSound | internal/spool/spool.go:180 | Whatever parses is a date and a time of day that exist, and begins as that time is printed. |
| CivilTime.FormatIsShort | internal/spool/spool.go:92 | The printed time has no fraction for a whole second, no zero at the end of one, and Z exactly for offset zero. |
| CivilTime.StampsFollowTime | internal/spool/spool.go:276-282 | For UTC times with four-digit years the fixed-width stamps compare as strings exactly as the instants do. |
| CivilTime.StampIs | internal/spool/spool.go:276-282 | Each calendar field is at its place in the stamp. |
| CivilTime.UtcFitsIs | internal/spool/spool.go:276-282 | A time has a four-digit year in UTC if and only if its instant lies between the first and the last of those years. |
| CivilTime.YearsAre | internal/spool/spool.go:276-282 | The days before a year are those of the Gregorian calendar in closed form. |
| StoreMachine.StoredFilesSurvive | internal/storage/storage.go:121-169 | Over any interleaving of calls and classifier writes, the body and all attachments of a finished call keep their bytes. |
| StoreMachine.PrefixesAreDistinct | internal/storage/storage.go:144-169 | No two calls ever hold the same prefix. |
| StoreMachine.StepKeepsInv | internal/storage/storage.go:126-134 | One file operation of any call or of the classifier leaves every call's files as they should be. |
| Store.Folder.WriteBodyWithCollisionHandling | internal/storage/storage.go:144-169 | Ends within one attempt more than there are files; claims the least free candidate, or stops at the first other error with nothing changed; touches no existing file; without such an error it claims one. |
| Store.Folder.WriteMessage | internal/storage/storage.go:121-142 | On success, which only an error prevents, body and attachments hold their bytes under the names returned; every other file is unchanged unless it had one of the message's attachment names. |
| Store.Archive.ProcessAndStore | internal/storage/storage.go:101-142 | In the recipient's folder for the day, made if need be, a new file holds the parsed body, and for each attachment a file with its number and extension holds its data, unless an operation fails; no other folder changes, and in this one only files with those attachments' names; a message that does not parse changes nothing. |
| Store.DirectoryIs | internal/storage/storage.go:108-115 | The folder's segments are the recipient's folder name and the year, month and day of receipt, in four and two digits. |
| Store.CandidateIs | internal/storage/storage.go:145-149 | A file prefix is hour, minute and second of receipt in two digits each, alone or with a dash and a number from 2 on. |
| Store.CallCanFinish | internal/storage/storage.go:121-169 | From any state, whatever files there are and whatever other calls are doing, a call that has begun can reach its end. |
| Store.TakenAreFiles | internal/storage/storage.go:145-154 | As many taken candidates as attempts means at least as many files. |
| StorageNames.CandidatesDiffer | internal/storage/storage.go:146-149 | Timestamp and attempt can be read off a candidate. |
| StorageNames.AttachmentNamesDiffer | internal/storage/storage.go:128 | Prefix, index and extension can be read off an attachment's name. |
| StorageNames.BodyIsNoAttachment | internal/storage/storage.go:128-151 | No attachment, sidecar or thumbnail has a body's name. |
| StorageNames.DerivedNamesDiffer | internal/classify/types.go:52-54 | With single-dot extensions, the sidecar or thumbnail of any file at all differs from every body and attachment. |
| StorageNames.DerivedOfAttachmentDiffers | internal/classify/service.go:313 | With any extensions, the sidecar or thumbnail of an attachment differs from every attachment. |
| StorageNames.ExtensionShape | internal/storage/storage.go:288-299 | Every extension begins with a dot, and has no other unless the MIME table gave it. |
| StorageNames.ExtensionFromIs | internal/storage/storage.go:288-299 | The name's own extension in small letters comes first, then the MIME table's first entry, then .bin. |
| Recipient.NormalizeRecipientFolder | internal/storage/storage.go:171-196 | The loop gives the specified name, which is one non-empty path component of unchanging letters, digits and @._+- without . or _ at either end, for any address and any Unicode tables that agree with ASCII, in which lower case stays lower case and no white space is a character a folder may keep. |
| Recipient.FolderForIsIdempotent | internal/storage/storage.go:171-196 | The folder of a folder name is the name itself. |
| Recipient.FolderIsByCharacter | internal/storage/storage.go:171-196 | For an address between letters or digits: each character is kept in lower case or becomes an underscore, one for one. |
| Recipient.NamelessIsUnknown | internal/storage/storage.go:171-196 | An address with nothing but dots, underscores and characters that cannot be kept gives unknown. |
| ClassifyQueue.StepKeepsPartition | internal/classify/service.go:155-187 | Every step keeps the queued set the disjoint union of reserved, waiting and held paths, each at one place. |
| ClassifyQueue.RunKeepsInv | internal/classify/service.go:143-187 | So it is, with first-in-first-out delivery and the capacity bound, in every state any number of producers and workers can reach. |
| ClassifyQueue.NoPathTwice | internal/classify/service.go:19 | No path is in the channel twice, with two workers, or both waiting and held; the channel never exceeds 1024. |
| ClassifyQueue.RefusedWhileSomewhere | internal/classify/service.go:155-161 | A reservation is refused exactly while the path is reserved, waiting or held. |
| ClassifyQueue.ReleaseIsOwn | internal/classify/service.go:163-187 | The release after a full queue or after processing frees its own path and leaves every other place as it is. |
| ClassifyQueue.SentJobIsWhere | internal/classify/service.go:163-187 | Every job whose call returned true is at its place in the channel, with a worker, or finished, and nowhere else. |
| ClassifyQueue.OneWorkerEach | internal/classify/service.go:175-187 | No job is given to two workers. |
| ClassifyQueue.QuietMeansEmpty | internal/classify/service.go:175-187 | With no call in progress nothing stays reserved and every job sent has been processed. |
| ClassifyQueue.Service.Enqueue | internal/classify/service.go:143-173 | Among other producers and workers: true means this call sent this job once, false that it sent nothing, because of the path or because at some moment of the call the path was somewhere or the channel full; no reservation of its own remains. |
| ClassifyQueue.Service.Work | internal/classify/service.go:175-187 | A worker's round takes the next job, and afterwards its ticket is finished and its path free; it takes none only if at some moment of the call the channel was empty. |
| Retry.ProcessWithRetry | internal/classify/service.go:189-298 | The whole log of a run, sidecar writes and index updates included, by the way it ended; it ends as cancelled exactly if cancellation is found before the last attempt begun or while it waits after that one failed, and never before. |
| Retry.UncancelledWrites | internal/classify/service.go:189-298 | Record i of the first k + 1 has state pending and i attempts and is otherwise the base, k at most retryMax + 1. Then comes the terminal one: failed only after every attempt failed, with the last error; skipped with the tool's error; success with thumbnail, response and the filtered detections. After a notification it is written again, published exactly if the publisher reported no error, with that error's text otherwise. |
| Retry.CancelledWrites | internal/classify/service.go:189-298 | A cancelled job has written pending records only, counted from 0, and notified nobody. |
| Retry.NotifiedOnce | internal/classify/service.go:251-265 | The publisher is called once for a notify job that succeeded, and not otherwise. |
| Retry.NotifiedAfterWrite | internal/classify/service.go:246-252 | A notification carries the success record and comes right after the attempts to write and index it. |
| Retry.IndexFollowsWrites | internal/classify/service.go:300-307 | The index is told of exactly the records whose writing was attempted, in that order. |
| Retry.FlagsAlwaysRight | internal/classify/service.go:229-235 | In every sidecar written, each flag is set exactly when a detection of that category is listed. |
| Retry.GaveUpSleeps | internal/classify/service.go:117-119 | A failed run has slept n(n+1)(2n+1)/6 seconds for n = retryMax exactly if n is at most 96038, and never more. |
| Retry.BackoffExact | internal/classify/service.go:117-119 | The backoff is the square of the attempt in seconds exactly up to attempt 96038, and never more. |
| Detections.NormalizeDetections | internal/classify/service.go:402-427 | A permutation of the mapped and filtered input by non-increasing confidence, every confidence at least the threshold, every category one of the three. |
| Detections.KeptIs | internal/classify/service.go:404-419 | A confidence above 1 and up to 100 counts as a hundredth of itself; a detection is kept exactly if that reaches the threshold and a category is found. |
| Detections.CategoryIs | internal/classify/service.go:429-444 | The words that make a text a person, else an animal, else a vehicle, else nothing. |
| Detections.NormalizeIsIdempotent | internal/classify/service.go:402-444 | Normalising again gives the same detections. |
| Detections.CategoryAgain | internal/classify/service.go:429-444 | A category found once is found again from its own name and the normalised label. |
| Detections.HasCategory | internal/classify/service.go:446-453 | True exactly when some detection has the category. |
| Detections.EventType | internal/mqttnotify/publisher.go:289-307 | The event type for the categories present, case and space ignored. |
| Detections.EventNameTellsAll | internal/mqttnotify/publisher.go:190 | Event types of different category sets differ, and every one but "none" is advertised. |
| Detections.ShouldNotify | internal/mqttnotify/publisher.go:236-243 | True exactly when some detection's category is configured. |
| Detections.OneMeaning | internal/classify/types.go:132-151 | For a normalised success record: status "detected", a non-empty list, an event type other than "none" and the guard with all three categories are equivalent, and the event type determines the three flags. |
| Sidecars.StatusIs | internal/classify/types.go:132-151 | Failed and skipped show exactly as they are, success by its flags, every other state and a missing sidecar as pending. |
| Sidecars.KindsAre | internal/classify/types.go:116-129 | A path is a video exactly if it ends, in either case, in one of eleven extensions, and a sidecar exactly if it ends in .detections.json. |
| FileIndex.DetectionLabels | internal/webui/server.go:933-954 | The loop with its seen map keeps each telling label at its first occurrence. |
| FileIndex.FirstSeenIsSet | internal/webui/server.go:933-954 | A label is shown exactly if some detection tells it, and once. |
| FileIndex.FirstSeenInOrder | internal/webui/server.go:933-954 | Labels come in the order in which they are first told. |
| FileIndex.ApplySidecar | internal/fileindex/index.go:319-349 | The index shows the same, with the labels sorted. |
| FileIndex.KindOfAbs | internal/classify/types.go:116-129 | Whether a path is a video or a sidecar does not depend on the root it is under. |
| FileIndex.Index.UpsertPath | internal/fileindex/index.go:173-264 | Refreshes exactly one row from the tree for a regular file below the root that is no sidecar; in all other cases changes nothing, and fails exactly for paths outside or missing. |
| FileIndex.Index.UpsertSidecar | internal/fileindex/index.go:218-237 | Refreshes the row, then its detection columns from the sidecar given, so that the row says failed, skipped, pending or detected exactly as the sidecar does; no other row changes; fails exactly where UpsertPath does, changing nothing. |
| FileIndex.FreshIs | internal/fileindex/index.go:173-216 | What a fresh row says, column by column: size, whole seconds, kind, and the video's sidecar or, without one, pending. |
| FileIndex.ShownIs | internal/fileindex/index.go:319-349 | What shows a sidecar says failed, skipped, detected, none or pending exactly as the sidecar does, has its flags, and each telling label once. |
| FileIndex.Index.Backfill | internal/fileindex/index.go:135-170 | Cancelled exactly if the context is found so before some entry; otherwise every indexable file has a fresh row and other rows stay; the table matches the tree exactly if it held no row outside it. |
| FileIndex.Index.Recent | internal/fileindex/index.go:286-317 | The first rows of the whole table by whole second and path, both descending. |
| FileIndex.RecentListIs | internal/fileindex/index.go:286-317 | As many rows as the limit allows, each as it is in the table, strictly by second and then by path, both descending. |
| FileIndex.NothingNewerIsLeftOut | internal/fileindex/index.go:286-317 | No row left out of the list is newer than one in it. |
| FileIndex.UpsertKeepsSync | internal/fileindex/index.go:173-264 | Storing or replacing a file and upserting it keeps the index in step. |
| FileIndex.SidecarKeepsSync | internal/classify/service.go:300-307 | Writing a video's sidecar and upserting it keeps the index in step. |
| FileIndex.LostWriteBreaksSync | internal/classify/service.go:247-250 | If the write failed, index and tree agree afterwards exactly if the old sidecar shows the same as the new one. |
| FileIndex.ThumbnailBreaksSync | internal/classify/service.go:309-322 | After a thumbnail is written beside a video, index and tree agree exactly if there is a row for it that already says what the tree says. |
| RecentFiles.ListRecentFiles | internal/webui/server.go:749-828 | The walk lists each indexable file once, newest first to the nanosecond, cut to the limit, with its summary. |
| RecentFiles.WalkListIs | internal/webui/server.go:749-828 | As many entries as the limit allows, each once and as its file is in the tree, newest first to the nanosecond. |
| RecentFiles.SummaryShowsState | internal/webui/server.go:922-931 | After any record is written the video shows as failed, skipped, detected or none exactly if the record says so, and as pending for every other state, with the record's flags. |
| RecentFiles.SummaryShowsRecord | internal/webui/server.go:922-931 | After a normalised success record is written the video shows as detected exactly if something is listed, with each flag as its category and each telling label once; before, it shows as pending; other files show what they did. |
| RecentFiles.SameSeconds | internal/webui/server.go:718-828 | Index list and walk have the same length and show the same whole second at every position. |
| RecentFiles.SameOrder | internal/webui/server.go:718-828 | If no two files share a second, both show the same file at every position. |
| RecentFiles.SameEntry | internal/webui/server.go:790-825 | Entries for one file agree on name, size, time, state, flags and label set; on the recipient exactly if the first path segment is not blank. |
| Token.RoundTrip | internal/webui/server.go:594-629 | What verification says of a fresh token, for every user name, expiry and time: refused for a name with a vertical bar, refused after the expiry cut to whole seconds, granted otherwise. |
| Token.LoginLasts | internal/webui/server.go:569-583 | The cookie of a login authenticates its user exactly up to that moment, unless the name holds a vertical bar. |
| Token.TokensDiffer | internal/webui/server.go:594-599 | Different users or different whole seconds have different tokens. |
| Token.AcceptedIsSigned | internal/webui/server.go:601-629 | Any accepted token carries the signature of the user and expiry it is accepted for, and that expiry has not passed. |
| Token.SignedIsAccepted | internal/webui/server.go:601-629 | Conversely, a token with such a signature is accepted for its user up to its expiry. |
| Token.AuthenticatedIsSigned | internal/webui/server.go:569-583 | For every cookie, set of users and time: it authenticates a name exactly if that is a configured user and verification granted it, and then it carries the signature of that name and of an expiry that has not passed. |
| Token.EpochIs | internal/webui/server.go:595-616 | The constant of the conversion is the time from the start of the year 1 to that of 1970. |
| Token.UnixAndBack | internal/webui/server.go:595-616 | Going to Unix seconds and back cuts to whole seconds, wrap-around included. |
| Encoding.DecodeOfEncode | internal/webui/server.go:598-602 | Decoding undoes base64url encoding without padding, for all bytes. |
| Encoding.DecodeOfEncodeHex | internal/webui/server.go:597-621 | Decoding undoes hexadecimal encoding, for all bytes. |
| Encoding.DecodeTakes | internal/webui/server.go:602 | Without line ends, decoding refuses exactly the texts with a foreign character and those that end in a group of one. |
| Encoding.DecodeHexTakes | internal/webui/server.go:618-621 | Hexadecimal decoding takes exactly pairs of digits in either case, the high digit first. |
| Int64.ParseOfPrint | internal/webui/server.go:595-611 | Parsing undoes printing for every 64-bit number. |
| Int64.ParseIntOf | internal/webui/server.go:611 | Digits after at most one sign are read as the number they denote if it fits 64 bits, and refused otherwise. |
| Int64.ParseIntTakes | internal/webui/server.go:611 | Nothing else is read. |
| Paths.Escape | internal/webui/server.go:852-861 | The loop escapes each segment and keeps the separators. |
| Paths.UnescapeOfEscape | internal/webui/server.go:852-861 | Percent-decoding an escaped path gives the path, for all bytes. |
| Paths.UnescapeTakes | internal/webui/server.go:650-653 | A text can be percent-decoded exactly if two hexadecimal digits follow every percent sign. |
| Paths.LinkCharacters | internal/webui/server.go:852-861 | A link holds unreserved characters, separators, percent signs and five sub-delimiters only: no blank, question mark or number sign. |
| Paths.ResolveAnswers | internal/webui/server.go:645-674 | For every request path: refused exactly when it has a ".." segment; otherwise the relative path found is canonical, free of backslashes, and at its place under the root, and the escape check never fires. |
| Paths.LinkRoundTrip | internal/webui/server.go:645-674 | A link leads back to its own file exactly when the path is canonical, has no backslash, and has no '%' or one that begins no escape. |
| HumanSize.Humanize | internal/webui/server.go:901-912 | From 1024 bytes on the unit is K, M, G, T, P or E by the power of 1024 the size has reached, with that power as divisor; the number shown is at least 1 and below 1024, and nothing overflows. |

## Left out

- MIME parsing, mail headers and HTML stripping: a message is its body and its list of extension and bytes.
- The SMTP, SASL, MQTT, SQLite and YAML libraries; the index table is a map, its writes succeed, and ORDER BY with LIMIT is sort and take.
- JSON beyond the one form in which Enqueue prints its metadata; a sidecar file either holds a sidecar or does not parse.
- The forms of a time that Go's parser accepts and Enqueue never prints.
- HMAC and password security: the signature is any function to bytes.
- ffmpeg, the classification provider and the thumbnail file: arbitrary outcomes per attempt.
- HTTP handlers, templates, the path cleaning of the request multiplexer, configuration, logging, the storage watchdog, and the LOGIN exchange.
- The MQTT side beyond event types and the guard: topics, camera identifiers, and the timers that reset motion.
- Symbolic links, unreadable directories, directory synchronisation and power loss; a crash is the end of the process.
- Subdirectories inside the spool directories, which the program skips; every spool entry is a file.
- 64-bit overflow of spool sizes, and floating-point rounding and NaN in confidences, which are real numbers.
- Letters, digits, case and white space outside ASCII, except in the recipient's folder name, where Unicode is a parameter.
- The choice of an item's random digits: the name is a parameter, required to be new.
- The walk that selects videos for the classification backfill, and the workers' shutdown on cancellation.
- The temporary file through which a sidecar is replaced.
- The columns abs_path and updated_at of the index, and the times and provider fields of a sidecar.
- SpoolQueue.Queue.Flush: no Enqueue and no crash beside it; SpoolRounds.RoundsAreBounded covers those.
- SpoolOrder.NameOrderIsTimeOrder: times whose year in UTC has not four digits are named as Go names them but not ordered.
- HumanSize.Humanize: gives the size, divisor and unit, not the printed digit after the point.
- Store.Archive.ProcessAndStore: alone in the archive; the interleaved form is the state machine.
