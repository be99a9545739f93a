# Verified models of hfast's core logic

This project models four parts of hfast in Dafny and proves what they guarantee.

**File serving** (`fileserver.go`). `ByteRange` parses a Range header and compares it with
section 2.1 of RFC 7233. `EntityTags` and `Preconditions` are the tag scanner, the list walks and
the ladder of section 6 of RFC 7232. `ServeContent` turns ranges into a status, headers and a
body, including the multipart writer (section 5.1.1 of RFC 2046) and the dry run that predicts its
length. `Paths` and `Redirects` hold path cleaning, the version stripper, the choice of a
compressed variant, and serveFile's redirects, resolved by section 5.2 of RFC 3986.

**The job queue** (`queue/`). `JobQueue` is a state machine: serialised transactions that store and
send a job, any number of worker connections, and every interleaving of their steps, including
failing writes, hang-ups and arbitrary lines. `QueueServer` is the imperative code of each step.
`JobFraming` is the JOB frame and the id encoding.

**Chunked uploads** (`contrib/uploadme`). `Upload` follows one file from the slicing loop through
the three store accesses of each post; `UploadSite` interleaves any number of uploads at that
grain; `UploadServer` adds the handlers, what status lists, and the reader loop; `UploadPool` is
the page's pool of four readers with its queue.

**The journal mailer** (`contrib/deltajournal`). `JournalReader` is the backward walk of ReadLines
over an append-only log with a read head; `JournalLines` says without the loop what it returns;
`JournalMailer` is the main loop over whole runs, with entries arriving at any moment.

`GoStrings` and `Http` hold the parts of Go's library these need: strings are Go strings, one
`char` per byte, and int64 arithmetic wraps where the code's can.

Code that changes state is a method or a class here, and its contract ties it to a function or a
step of a state machine; the theorems are about those. `dafny verify dfyconfig.toml` covers
everything.

Where the code does not keep what its documentation or the standard promises, the model keeps the
code, an example shows the failure, and a lemma states exactly when the promise holds:

- The range parser departs from section 2.1 of RFC 7233 on four kinds of pieces: what it reads
  though the grammar has no such piece (a plus sign, a second dash, blanks by the dash, other white
  space), what it drops for beginning past the end before it looks at the rest, last positions and
  other numbers beyond int64, and `-0`; and a list of nothing but empty elements passes
  (`AgreesWithRfc`, `ReadAnywayShapes`, with `PlusSignExample`, `NegativeSuffixExample`, `OverlookedExample`,
  `TooBigExample`, `ZeroSuffixExample`).
- Negative lengths cancel in the sum that is compared with the size, and the sum can wrap around, so
  parts are announced that hold more than the content. The length that is counted for them cancels
  and wraps alike, so the answer is cut short instead of growing (`PayloadOfPlan`, `DryRunAgrees`,
  `NeverMuchMore`, with `CancelledSum`, `WrappedSum`).
- An empty element in an If-None-Match list hides the tags behind it, and one at the end panics
  (`WellFormedLists`, `ListsDecide`, `PanicsExactly`, with `HiddenTagExample`).
- A job is sent to its channel before its transaction commits, so a waiting worker can look it up
  too early, and crash on a bucket's first job (`LookupAfterCommit`, with `TooEarly`).
- A worker's connection writes the bytes of a record after the transaction in which bolt lets it use
  them, so commits in between may change what goes out (`FetchAfterCommit`, `WorkerReadsPosted`, with
  `TornJob`).
- An empty file is uploaded without an error, but one part is recorded against an announced count of
  zero, so it is never listed (`CompleteUnlessEmpty`).
- An upload named `x.json` is listed as `x` (`ListedIsComplete`, with `ListedWithoutRecord`).
- The mailer's README promises that no issue is ever missed; entries with 1024 entries or more than
  512 KB of lines after them in a round are (`MailedUnlessCutOff`, `LimitsDecide`, with
  `AnIssueIsMissed`).
- The mailer's severity test skips entries whose priority number is below the setting, which in
  syslog's numbering are the graver ones: with nothing configured, emergencies to warnings
  (`ReportedExactly`, `IgnoredIsNeverMailed`, with `AnErrorIsMissed`).

## Model

| member | source | states |
|---|---|---|
| ByteRange.ParseRange | fileserver.go:833-899 | The loop over the pieces computes the verdict of the whole header for every text and size: each piece is skipped, rejects the header, is dropped or adds a range, in order |
| ByteRange.OtherHeaders | fileserver.go:834-842 | An empty header asks for no ranges and any other that does not begin with bytes= is invalid, never "no overlap" |
| ByteRange.ReturnedRangesInBounds | fileserver.go:853-896 | All returned ranges lie inside the content if and only if no piece has a negative suffix length |
| ByteRange.CoveredIsSelected | fileserver.go:843-899 | A byte below the size is in some returned range if and only if some well-formed piece asks for it |
| ByteRange.GrammarIsRead | fileserver.go:843-894 | A piece of the grammar of section 2.1, blanks around it allowed, is read as the grammar says if its numbers are int64s, and not at all otherwise |
| ByteRange.AgreesWithRfc | fileserver.go:833-899 | For every header that begins with bytes= the verdict is the one section 2.1 gives by its own grammar, on pieces trimmed of OWS and with unbounded numbers, if and only if no piece is of the four kinds above and not all are empty, or the parser refuses some piece and the grammar some piece |
| ByteRange.ReadAnywayShapes | fileserver.go:843-884 | What the parser reads outside the grammar has a plus sign, a second dash, or a byte other than graphic ASCII inside; there are no other shapes |
| ByteRange.OverlookedHeader | fileserver.go:867-875 | A piece that begins past the end and continues with no digits yields "no overlap" where the standard says malformed |
| ByteRange.OverlookedExample | fileserver.go:867-875 | The header bytes=100-abc at size 10 is such an input |
| ByteRange.NegativeTurn | fileserver.go:853-866 | A suffix length of minus n, which the grammar does not have, yields a range of length minus n that begins n bytes behind the content |
| ByteRange.NegativeSuffixExample | fileserver.go:853-866 | The header bytes=--5 at size 10 returns a range of length -5 from 15 where the standard says malformed |
| ByteRange.PlusTurn | fileserver.go:867-889 | A plus sign before a first position is read past, where the grammar has none |
| ByteRange.PlusSignExample | fileserver.go:867-889 | The header bytes=+5-9 at size 20 returns bytes 5 to 9 where the standard says malformed |
| ByteRange.TooBigTurn | fileserver.go:882-888 | Any last position beyond int64 is refused where the standard clips it to the content |
| ByteRange.TooBigExample | fileserver.go:882-888 | The header bytes=0-9223372036854775808 at size 10 is such an input |
| ByteRange.ZeroSuffixExample | fileserver.go:853-866 | The header bytes=-0 returns an empty range where the standard says unsatisfiable, at every size |
| ByteRange.NoOverlapExactly | fileserver.go:870-898 | "No overlap" is the answer if and only if every piece is blank or begins past the end and at least one is not blank |
| ByteRange.RangesRoundTrip | fileserver.go:820-899 | Any list of in-bounds non-empty ranges, printed as first-last, joined by commas and parsed again, is the same list in the same order |
| ByteRange.ContentRangeReadsBack | fileserver.go:820-822 | The first, last and size of a Content-Range, read from its text, are those of the slice and the content |
| EntityTags.ScanTag | fileserver.go:332-355 | A found tag is valid, is what the trimmed text begins with, and leaves a strictly shorter rest; none is found exactly when no prefix of the text is a valid tag |
| EntityTags.ScanETag | fileserver.go:332-355 | The byte loop finds that tag and that rest |
| EntityTags.TagsArePrefixFree | fileserver.go:332-355 | No valid tag is a proper prefix of another, so the tag at the front of a text is unique |
| EntityTags.StrongImpliesWeak | fileserver.go:359-367 | Tags that match strongly match weakly, and valid tags that match weakly match strongly when both are strong |
| EntityTags.WeakMarkers | fileserver.go:359-367 | A weak marker ends every strong match and changes no weak one |
| EntityTags.TagCharExactly | fileserver.go:332-355 | The bytes a tag is made of are 0x21, 0x23 to 0x7E and 0x80 upwards, and no others |
| EntityTags.StarNamesAll | fileserver.go:384-451 | Whatever the current tag, a star meets If-Match and fails If-None-Match |
| EntityTags.GarbageNamesNothing | fileserver.go:384-451 | A text that begins with no tag, comma or star fails If-Match and meets If-None-Match |
| EntityTags.CheckIfMatch | fileserver.go:379-407 | The loop over the header text decides as the walk over its tags does |
| EntityTags.CheckIfNoneMatch | fileserver.go:425-452 | Likewise, with the panic on an empty rest behind a comma |
| EntityTags.WellFormedLists | fileserver.go:384-451 | On any comma-separated list of valid tags and empty elements with any blanks around them, If-Match meets all tags and If-None-Match exactly those before the first empty element, not counting one at the very start |
| EntityTags.ListsDecide | fileserver.go:379-452 | On such a list If-Match is decided by all tags; If-None-Match is decided by all tags if and only if one it reads matches, or none at all does and it does not panic |
| EntityTags.HiddenTag | fileserver.go:430-450 | Of a list a,,b If-None-Match reads a only, whatever tags a and b are, so it misses a current tag b that does not match a; If-Match meets both |
| EntityTags.HiddenTagExample | fileserver.go:430-450 | The list "a",,"b" does not count as naming the current tag "b" |
| EntityTags.JoinedLists | fileserver.go:384-451 | On valid tags joined by ", ", If-Match holds if and only if some member strongly equals the current tag and If-None-Match fails if and only if some member weakly does; with one more comma only If-None-Match changes, to a panic exactly when nothing matches |
| EntityTags.DanglingExactly | fileserver.go:430-439 | For every header text, the walk runs off its end if and only if the text ends in one comma more than a text that the walk reads to its end |
| EntityTags.PanicsExactly | fileserver.go:425-452 | For every header text, the condition panics if and only if such a comma ends it and no tag before it matches |
| Preconditions.UnmodifiedCond | fileserver.go:409-423 | Fails exactly for a known time, a readable date and a change in a later second |
| Preconditions.ModifiedCond | fileserver.go:454-472 | Fails exactly for GET or HEAD, a known time, a readable date and no change in a later second |
| Preconditions.RangeCond | fileserver.go:474-503 | Fails exactly when a given validator neither strongly matches nor names the second of the modification |
| Preconditions.TagInIfRange | fileserver.go:474-503 | A tag in If-Range keeps the range if and only if it equals the current tag and is strong |
| Preconditions.WriteNotModified | fileserver.go:518-531 | 304, no body, no representation headers, and Last-Modified only where there is no Etag; every other header as it was |
| Preconditions.CheckPreconditions | fileserver.go:535-566 | The decision is section 6's for every combination of headers, status and headers say so, and a range is passed on only past all other conditions and never against a failed If-Range |
| Preconditions.StatusExactly | fileserver.go:535-566 | 412 if and only if the request is stale (If-Match names no strong match; or it is absent and the content changed after If-Unmodified-Since) or If-None-Match names the current tag outside GET and HEAD; 304 if and only if it is not stale, is GET or HEAD, and If-None-Match names the tag or is absent with nothing changed since If-Modified-Since; the panic exactly where the If-None-Match walk breaks |
| Preconditions.JoinedListsDecide | fileserver.go:379-452 | With lists of tags joined by ", " as the only condition: If-Match goes on or 412, If-None-Match goes on or 304 on GET and HEAD and 412 otherwise, by whether a member matches |
| Preconditions.SetLastModified | fileserver.go:512-516 | Announces the second of a known time and leaves every other header alone |
| Preconditions.IgnoresModifiedSince | fileserver.go:546-558 | No value of If-Modified-Since changes the decision beside If-None-Match or outside GET and HEAD |
| Preconditions.IgnoresUnmodifiedSince | fileserver.go:538-541 | No value of If-Unmodified-Since changes the decision beside If-Match |
| Preconditions.EchoedModifiedSince | fileserver.go:454-472 | The emitted Last-Modified, echoed alone in If-Modified-Since on GET or HEAD, yields 304 |
| Preconditions.EchoedUnmodifiedSince | fileserver.go:409-423 | Echoed in If-Unmodified-Since beside any other headers it decides nothing, so never 412 |
| Preconditions.EchoedIfRange | fileserver.go:474-503 | Echoed in If-Range it keeps the Range header |
| ServeContent.SumRangesSize | fileserver.go:923-928 | The sum of the lengths, wrapped to int64 |
| ServeContent.WriteParts | fileserver.go:295-313 | The writing loop emits each part's head and bytes in order and the closing delimiter, or stops for good at the first part it cannot read |
| ServeContent.RangesMIMESize | fileserver.go:902-921 | The counting loop yields the size of all heads plus all lengths plus the closing delimiter, in int64 arithmetic |
| ServeContent.DryRunAgrees | fileserver.go:286-314 | Under any two boundaries of one length the real body is longer than the counted sum by exactly what the negative lengths take off; without any, the count is right if and only if the body has an int64 size |
| ServeContent.PartAt | fileserver.go:295-313 | Part i of the body is its head followed by exactly content[start..start+length], behind the parts before it |
| ServeContent.ReadPlan | fileserver.go:250-287 | What parseRange and sumRangesSize make of a header: whole, one range, several, or refused |
| ServeContent.PartFieldsAre | fileserver.go:824-829 | The fields of a part are its Content-Range and Content-Type lines and a blank line, in this order |
| ServeContent.DelimitersAre | fileserver.go:297-311 | What is written before the first part, before the others and at the end, byte by byte |
| ServeContent.SendContent | fileserver.go:246-327 | 206 if and only if the header parses to ranges whose int64 sum is at most the size and of which a single one begins at 0 or later; 416 if and only if it does not parse, overlaps nothing, or has one range that begins below 0, with the matching message; otherwise 200, or 404 for the unknown root. Final headers and body are those of the plan, over whatever headers were set before |
| ServeContent.ServeContent | fileserver.go:185-327 | From preconditions to the last byte: 412, 304, or the plan of the range header that passed the preconditions, with the status as above; without a Range header the whole content, its length and 200 (404 for the unknown root) |
| ServeContent.PayloadOfPlan | fileserver.go:258-264 | The slices of any multi-range answer hold the sum of the lengths plus what the negative ones take off it; for a header without negative suffixes that is at most the size if and only if the lengths add up to an int64 |
| ServeContent.CancelledSum | fileserver.go:258-264 | The header bytes=0-9,0-9,--10 at size 10 is answered with parts whose lengths add up to 10 and whose slices hold 20 bytes |
| ServeContent.WrappedSum | fileserver.go:923-928 | Four times the whole of 2^62 bytes passes for a sum of 0, so all four parts are announced |
| ServeContent.NeverMuchMore | fileserver.go:286-326 | Whatever the ranges are, the bytes sent for several of them are at most the size plus the delimiters and part headers |
| ServeContent.ServedBytes | fileserver.go:246-327 | For in-bounds ranges: none, or an int64 sum above the size, gives the content; otherwise one gives exactly its slice and its Content-Range, and several give the complete multipart body if and only if its size is an int64; Content-Length is the length copied, and right in each case |
| Redirects.Revisioned | fileserver.go:568-586 | The loop strips the first version component, or panics at an empty one before it |
| Redirects.StripUndoesInsert | fileserver.go:568-586 | Inserting a version behind one to three ordinary components and stripping it gives back the name, whatever follows |
| Redirects.StripsExactly | fileserver.go:568-586 | Without ".v" nothing is stripped; otherwise the first component of five that is empty or v and a number decides: a panic or the name without it |
| Redirects.Precompressed | fileserver.go:588-617 | The name chosen is an existing compressed variant the request accepts, or the unversioned name, with the matching Content-Encoding |
| Redirects.VariantExactly | fileserver.go:588-617 | For pages, scripts and style sheets: br if and only if it is accepted and the .br file exists, else gzip if and only if it is and the .gz file exists, else none; the name ends in the suffix of the encoding announced |
| Redirects.AcceptsListed | fileserver.go:594-606 | A header of up to ten codings accepts exactly these, in any letter case |
| Redirects.LocalRedirect | fileserver.go:730-736 | 301 to the target with the query appended |
| Redirects.ServeFile | fileserver.go:620-709 | The answer to a URL path: redirect, error, listing or content, as a function of tree, headers and path |
| Redirects.ServesExactly | fileserver.go:623-709 | A file is served if and only if it is the variant of a path without a final slash, or the variant of the index file of a directory whose path has one |
| Redirects.RefusesExactly | fileserver.go:623-709 | 404 if and only if the variant of the name is not there; 403 exactly for dot paths, .php, files that cannot be opened, and directories whose index is no file |
| Redirects.RedirectsExactly | fileserver.go:623-682 | A redirect if and only if the path ends in /index.html, or ends in a slash where a file is found, or in none where a directory is |
| Redirects.WhyRedirect | fileserver.go:623-682 | A redirect has one of three reasons, each with its own target |
| Redirects.SlashSettles | fileserver.go:655-682 | After a slash was added the same directory answers without another redirect |
| Redirects.RedirectStep | fileserver.go:623-682 | A redirect from a plain path, resolved, leads to a shorter plain path, or to the path with a slash added where no redirect follows |
| Redirects.RedirectsTerminate | fileserver.go:620-736 | Over any tree and headers no chain of redirects from a plain path has more requests than the path has bytes |
| Paths.CleanOfPath | fileserver.go:806-813 | Cleaning a plain path drops its trailing slash and nothing else |
| Paths.CleanDots | fileserver.go:806-813 | Anywhere in a path empty and "." segments mean nothing and ".." takes back the segment before it, or nothing at the root; a cleaned path has none of them, so no lookup leaves the root |
| Paths.ResolveSegments | fileserver.go:730-736 | Resolving a relative reference against a plain path puts the reference's segments in place of the last one |
| JobFraming.ReadsFrame | queue/worker.go:131-139 | One frame is read back exactly and nothing behind it is touched, whatever the body holds |
| JobFraming.FramesRoundTrip | queue/worker.go:131-139 | A reader of lines, lengths and bytes recovers any sequence of jobs sent, bodies with line ends included |
| JobFraming.IdsRoundTrip | queue/queue.go:173-175 | Every uint64 id survives little-endian encoding, and every eight-byte key names one id |
| JobFraming.ByteWeighs | queue/queue.go:173-175 | Byte i of a key counts 256 to the i, so keys are little-endian |
| JobQueue.InvHolds | queue/worker.go:68-179 | An inductive invariant of sequence numbers, channels, connections and transactions holds after any events |
| JobQueue.Conservation | queue/worker.go:106-178 | Each job sent is in exactly one of: the channel, one connection in state 2, given back, acknowledged |
| JobQueue.DeliveryOrder | queue/queue.go:163-185 | The ids taken from a bucket, over all connections, are 1, 2, 3 and so on in order; the channel holds the rest, at most 500 |
| JobQueue.SenderWaits | queue/queue.go:182-185 | In every run, a transaction about to send waits if and only if 500 ids of its bucket are queued |
| JobQueue.HistoryGrows | queue/queue.go:151-187 | No step forgets or reorders what was sent, taken or acknowledged |
| JobQueue.SentAreBegun | queue/queue.go:151-187 | What was sent to a bucket are the bodies posted to it, in order; only the last posted may not be sent yet |
| JobQueue.AckedByOk | queue/worker.go:161-164 | For every event, the acknowledged jobs of a bucket grow if and only if it is a line whose first word is OK, from a worker of that bucket in state 2, and then by exactly the id in its hands |
| JobQueue.LineWithJob | queue/worker.go:153-171 | With a job in hand OK acknowledges that job alone and leaves the connection reading in state 1, an answered PONG changes nothing at all, and anything else, or a failure, ends the connection with the job to be given back; no other connection changes |
| JobQueue.LineWithoutJob | queue/worker.go:106-151 | In state 1 only READY leads on, to waiting for a job; any other word is answered INVALID and ends the connection |
| JobQueue.LineBeforeChannel | queue/worker.go:92-105 | In state 0 only CHAN with an argument leads on, to state 1 on that channel, and CHAN without one crashes the process; any other word ends the connection |
| JobQueue.WriteLeaves | queue/worker.go:131-144 | For each place where the frame or the deadline can fail: the bytes sent, the job delivered or not, and the connection ended with the job still in hand |
| JobQueue.BrokenEnds | queue/worker.go:175-178 | A failed read or lookup ends the connection with what it has in hand and changes nothing else |
| JobQueue.LookupAfterCommit | queue/worker.go:119-125 | The lookup finds the posted body if and only if the transaction that stored it has committed by then, and crashes if and only if none of the bucket has |
| JobQueue.FetchAfterCommit | queue/worker.go:131-139 | A frame carries the posted body if and only if the looked-up slice still shows it; as long as no transaction commits after the lookup, that is if and only if the job's own has |
| JobQueue.TornJob | queue/worker.go:119-139 | A run in which a commit comes between lookup and write and other bytes go out under the job's id |
| JobQueue.TooEarly | queue/worker.go:119-125 | A run in which the lookup comes before the first commit and crashes |
| JobQueue.SessionAccount | queue/worker.go:75-178 | For any lines from any workers: state 2 if and only if a message is in hand, takes minus acknowledgements is 1 exactly then, and the value given back exists |
| JobQueue.WorkerReadsJobs | queue/worker.go:68-139 | What a connection was sent is the handshake and then exactly the frames of the jobs delivered to it |
| JobQueue.WorkerReadsPosted | queue/worker.go:68-139 | What a worker parses off its connection are jobs posted to its bucket, in strictly increasing order, each with no bytes or as many as were posted, and with the posted ones in a run whose writes find what their lookups found |
| JobQueue.SteadyIsUntorn | queue/worker.go:119-139 | Such is every run in which no transaction commits between a lookup and its write |
| QueueServer.Server.BeginUpdate | queue/queue.go:151-184 | The code up to the send is the Begin step: next id, stored body, channel created when missing |
| QueueServer.Server.SendMessage | queue/queue.go:185 | The channel send is the Send step |
| QueueServer.Server.CommitUpdate | queue/queue.go:186-187 | The end of the transaction is the Commit step |
| QueueServer.Server.Turn | queue/worker.go:80-172 | One turn of handle's loop on its local variables is the protocol's transition for that line |
| QueueServer.Server.HandleLine | queue/worker.go:80-172 | A line read, up to the next blocking point, is the Line step |
| QueueServer.Server.HandleReceive | queue/worker.go:108-117 | The select is the Take step: the head of the channel, into this connection's hands |
| QueueServer.Server.HandleView | queue/worker.go:119-129 | The lookup is the View step, failing or not |
| QueueServer.Server.HandleJob | queue/worker.go:131-144 | Frame and deadline are the Write step, from the bytes the slice shows by then, with each write or the deadline failing or not |
| QueueServer.Server.EndSession | queue/worker.go:175-178 | The end of handle is the Leave step |
| QueueServer.Server.HandleHangup | queue/worker.go:80-86 | A failed read is the Hangup step |
| Upload.ChunksReassemble | contrib/uploadme/pub/chunked.js:47-51 | The slices put together are the file, for every file and size |
| Upload.CountIsRight | contrib/uploadme/pub/chunked.js:14-17 | The announced number of chunks is the number of slices of a file that is not empty |
| Upload.SizesAddUp | contrib/uploadme/main.go:188 | The recorded part sizes add up to the file's size |
| Upload.NextSlice | contrib/uploadme/pub/chunked.js:29-51 | The slice posted is the next of the file's slices and the offset moves on with it |
| Upload.StepGoes | contrib/uploadme/main.go:136-195 | From any store, every small step of an acceptable upload keeps: the parts so far are the first slices, the record lists their sizes |
| Upload.AloneFinishes | contrib/uploadme/pub/chunked.js:29-51 | An upload nothing rejects is done after exactly three small steps for each slice |
| Upload.RejectedAtOnce | contrib/uploadme/main.go:96-115 | An upload that is not acceptable fails at its first slice, whatever the store holds |
| Upload.DoneReassembles | contrib/uploadme/main.go:136-195 | When done, parts name.0 to name.(total-1) concatenate to the file and the record has their sizes |
| Upload.RecordUntouched | contrib/uploadme/main.go:136-195 | Until the first slice is recorded, the record of an earlier upload of the name is as it was |
| Upload.NotEarly | contrib/uploadme/main.go:75-83 | From then on and before the end there is no complete record of the name |
| Upload.CompleteUnlessEmpty | contrib/uploadme/pub/chunked.js:13-51 | An acceptable upload ends well after three steps for each slice, and its name is then complete if and only if the file is not empty |
| Upload.PartIsNoRecord | contrib/uploadme/main.go:136-155 | A part's key is never a record's key, of whatever name |
| UploadSite.KeysDisjoint | contrib/uploadme/main.go:136-155 | The keys of different names never collide, whatever dots, digits and suffixes the names contain |
| UploadSite.AsIfAlone | contrib/uploadme/main.go:136-195 | After any schedule of any uploads with distinct names each is where it would be by itself after its share of the steps, and so are its keys |
| UploadSite.EndToEnd | contrib/uploadme/pub/chunked.js:13-51 | From any store and interleaved with any others, an acceptable upload is never rejected, is done exactly after its three steps a slice and reassembles to the file from then on; before, its name is complete if and only if it was at the start and the first slice is not recorded yet |
| UploadServer.HandlerIsThreeSteps | contrib/uploadme/main.go:95-202 | The whole handler is the three small steps in a row, and answers OK. exactly when none of them fails |
| UploadServer.ChunkDecides | contrib/uploadme/main.go:95-202 | A missing or unreadable parameter is 400 and a missing record 500, both changing nothing; a body over 1.5 MB is 500 and leaves its first bytes as the part; exactly the other posts are OK, store the part and add its size to the record, a new one for part 0 |
| UploadServer.ShownUnderOwnName | contrib/uploadme/main.go:82 | A record is shown under its own name if and only if the name does not contain ".json" |
| UploadServer.ShownAsOther | contrib/uploadme/main.go:82 | The record of name.json is shown as name |
| UploadServer.ListedIsComplete | contrib/uploadme/main.go:57-84 | Status lists exactly the complete uploads if and only if no complete record belongs to a name that contains ".json" |
| UploadServer.ListedWithoutRecord | contrib/uploadme/main.go:82 | Elsewhere a name without a record can be listed |
| UploadServer.ListedMeansWhole | contrib/uploadme/main.go:75-83 | Among uploads of distinct names without ".json", from any directory whose listing is exact, status lists one if and only if it has had all its steps, or not its first three and was listed before; with all its steps its parts are the file |
| UploadServer.Server.Chunk | contrib/uploadme/main.go:95-202 | The handler's code leaves the store and answer of HandleChunk |
| UploadServer.Server.Status | contrib/uploadme/main.go:35-93 | The loop shows exactly the complete record files of the directory, or an error when one cannot be decoded |
| UploadServer.Server.Rm | contrib/uploadme/main.go:204-233 | The record goes, every other file stays; without a name, a directory or a record nothing goes and the answer is 400, 404 or 500 |
| UploadServer.ChunkedReader | contrib/uploadme/pub/chunked.js:5-52 | The callback loop, posting each slice to the handler until one is refused, ends done if and only if the upload is acceptable, and then the stored parts are the file |
| UploadServer.ReaderEnds | contrib/uploadme/pub/chunked.js:5-52 | However long it takes, an upload that has ended is whole if it is acceptable and refused otherwise |
| UploadPool.InvHolds | contrib/uploadme/pub/chunked.js:54-83 | An inductive invariant over any submissions, answers and read errors |
| UploadPool.PoolGuarantee | contrib/uploadme/pub/chunked.js:54-83 | Workers are the active readers, at most four, with a queue only when there are four; files start once each in order of submission; submitted is waiting plus active plus finished |
| UploadPool.FinishedOnce | contrib/uploadme/pub/chunked.js:64-76 | No file's done handler is called twice |
| UploadPool.AnswerProgresses | contrib/uploadme/pub/chunked.js:29-41 | Each answer lowers the bytes and files outstanding |
| UploadPool.RefusedFinishes | contrib/uploadme/pub/chunked.js:29-41 | A refused slice finishes its file at once and starts the oldest waiting one or frees the worker |
| UploadPool.FinishedBySlices | contrib/uploadme/pub/chunked.js:29-41 | A file whose slices are all answered OK is finished by exactly as many answers as it has slices left, Upload.ChunkCount of its bytes, and by none before |
| UploadPool.BrokenStays | contrib/uploadme/pub/chunked.js:22-27 | A file whose read failed keeps its worker and is never answered again |
| UploadPool.PoolDrains | contrib/uploadme/pub/chunked.js:29-83 | Without read errors the number of answers is bounded by that measure, and when none is possible any more nothing is active or waiting |
| UploadPool.Page.LimitedChunkedReader | contrib/uploadme/pub/chunked.js:57-83 | The call is the Submit step |
| UploadPool.Page.NextFile | contrib/uploadme/pub/chunked.js:64-77 | The done handler starts the oldest waiting file or gives up the worker |
| UploadPool.Page.OnAnswer | contrib/uploadme/pub/chunked.js:29-41 | The reader's callback is the Answered step |
| JournalReader.FindRule | contrib/deltajournal/journal/readlines.go:70-101 | Overwriting default by unit by the part before the dash equals the first configured of unit, part before the dash, default, built-in |
| JournalReader.FirstConfigured | contrib/deltajournal/journal/readlines.go:81-101 | Of the unit, its part before the dash and default, the first that is configured gives severity and filters; only the second changes the unit shown |
| JournalReader.NothingConfigured | contrib/deltajournal/journal/readlines.go:70-71 | Without any of the three: severity 5, no filters |
| JournalReader.UnitNames | contrib/deltajournal/journal/readlines.go:73-79 | name.suffix and name@instance.suffix are the unit name; a unit without a dot has none |
| JournalReader.Judge | contrib/deltajournal/journal/readlines.go:70-140 | The loop body's verdict on one entry: ignored, its line, an error or a panic |
| JournalReader.LineReadsBack | contrib/deltajournal/journal/readlines.go:103-140 | From a line reported the shown unit, the priority (the severity where there is none) and the trimmed message read back |
| JournalReader.Unusable | contrib/deltajournal/journal/readlines.go:73-112 | A panic exactly for a unit without a dot, an error exactly for a priority that is no number otherwise |
| JournalReader.ReportedExactly | contrib/deltajournal/journal/readlines.go:103-137 | An entry with a usable unit is reported if and only if no filter matches and it has no priority or a number not below the severity of its rule; it is ignored exactly when a filter matches or its number is below |
| JournalReader.GraveIsIgnored | contrib/deltajournal/journal/readlines.go:70-119 | With nothing configured, priorities 0 to 4 are ignored |
| JournalReader.Journal.HasLog | contrib/deltajournal/journal/journal.go:9-35 | The newest entry's cursor, "" when it is the known one, a panic on an empty journal |
| JournalReader.Journal.ReadLines | contrib/deltajournal/journal/readlines.go:15-151 | The prepending loop with its running size returns what the walk over the log says, with entries arriving after HasLog, stop signals and library errors at any turn |
| JournalLines.ReadLinesMeans | contrib/deltajournal/journal/readlines.go:35-150 | The result is the selected entries after the cursor among the newest 1024, oldest first, cut to a suffix whose total without its oldest line is at most 512 KB; an error if and only if an unusable entry is reached |
| JournalLines.InterruptedAt | contrib/deltajournal/journal/readlines.go:39-112 | A walk that gets m entries back and meets a stop signal there returns those m and no cursor; one that meets a library error or a bad priority returns nothing and the error; at a unit without a dot it panics |
| JournalLines.NothingToWalk | contrib/deltajournal/journal/readlines.go:15-29 | A journal that cannot be opened is an error, an empty one a panic, and one with nothing new no lines and no cursor |
| JournalLines.ReachesExactly | contrib/deltajournal/journal/readlines.go:39-148 | A call reaches an unread entry if and only if fewer than 1024 entries and at most 512 KB of lines are newer |
| JournalLines.ReadsAllExactly | contrib/deltajournal/journal/readlines.go:39-148 | A call reads everything unread if and only if it is within the two limits |
| JournalMailer.InvHolds | contrib/deltajournal/main.go:79-115 | An inductive invariant over whole runs: the passes over the log connect, each mail is what its pass reported |
| JournalMailer.RefusedIsRetried | contrib/deltajournal/main.go:95-100 | A round whose mail is refused changes nothing but the log |
| JournalMailer.AcceptedMoves | contrib/deltajournal/main.go:95-106 | A round whose mail is accepted adds that mail and one pass, and moves the cursor to the newest entry its HasLog saw |
| JournalMailer.NothingToMail | contrib/deltajournal/main.go:87-93 | A round without lines sends no mail and moves the cursor where there is one to move to |
| JournalMailer.EndsTheLoop | contrib/deltajournal/main.go:84-86 | A stop signal or a panic ends the loop and leaves cursor and mails |
| JournalMailer.MailedMeansAccepted | contrib/deltajournal/main.go:95-106 | In every run, for a mailed entry there is a round whose mail was accepted and held the lines of a pass that covers it |
| JournalMailer.RefusedExample | contrib/deltajournal/main.go:95-100 | One entry and a refused mail: no mail, no pass, and the cursor where it was |
| JournalMailer.CoveredIsMailed | contrib/deltajournal/main.go:95-105 | The line of a selected entry is in the accepted mail of every pass that read the entry |
| JournalMailer.MailedUnlessCutOff | contrib/deltajournal/main.go:81-115 | A selected entry at or before the cursor is in an accepted mail if and only if, for the pass that led the cursor over it and for the one before, it was not there yet or 1024 entries or more than 512 KB of lines had been logged after it |
| JournalMailer.LimitsDecide | contrib/deltajournal/main.go:81-115 | A run reads every entry its cursor passed if and only if each of its moving rounds was within the limits |
| JournalMailer.NothingMissed | contrib/deltajournal/main.go:81-115 | Within the limits every selected entry at or before the cursor has been mailed |
| JournalMailer.TwiceOnlyInTheGap | contrib/deltajournal/journal/readlines.go:22-33 | Two mails with one entry are consecutive and the entry arrived between the first one's HasLog and its SeekTail |
| JournalMailer.AtMostTwice | contrib/deltajournal/main.go:81-115 | No entry is mailed more than twice, whatever the limits |
| JournalMailer.BacklogIsCutOff | contrib/deltajournal/journal/readlines.go:39-147 | Any first round past the limits moves the cursor over an entry that is in no mail |
| JournalMailer.AnIssueIsMissed | contrib/deltajournal/README.md:7 | 1025 plain messages at start-up are such a round |
| JournalMailer.IgnoredIsNeverMailed | contrib/deltajournal/main.go:81-115 | In every run the lines of a pass are the same with and without an ignored entry that it read past |
| JournalMailer.IgnoredArePassed | contrib/deltajournal/main.go:88-91 | A first round over any ignored entries sends no mail and leaves the cursor behind them all |
| JournalMailer.AnErrorIsMissed | contrib/deltajournal/journal/readlines.go:114-119 | A lone error of priority 3 with nothing configured: the cursor is past it and no mail was sent |
| JournalMailer.Process.Turn | contrib/deltajournal/main.go:81-126 | One turn of the loop, with its retry on a failed mail, is a step of the run |
| JournalMailer.Process.Loop | contrib/deltajournal/main.go:81-127 | The loop over any turns leaves the state of the run |

## Left out

- Sockets, TLS, HTTP/3, systemd, signals, FastCGI, proxying, rate limits, authentication, security headers: they wrap libraries or are single branches.
- Header names are an enumeration and each header has at most one value; text is bytes, so Unicode enters only through UTF-8 white space; ToLower is ASCII's.
- The printing and parsing of HTTP dates and of JSON are parameters. Assumed are their round trips, and that a printed date is not empty and does not scan as an entity-tag.
- Content types and sniffing, Cache-Control and the host override of serveContent: reduced to the settings ServeContent takes, because they are suffix tests.
- ServeContent.WriteParts: the pipe between writer and copier is sequential here; a copier that stops early ends the goroutine in the source.
- ServeContent.PartAt: requires ranges that can be read; a start beyond the content reads nothing, and a negative one is refused before.
- ByteRange.AgreesWithRfc: headers that begin otherwise are refused with 416, where the standard lets a server ignore units it does not know; range units are compared with their case.
- Redirects.RedirectsTerminate: only from paths of plain segments, without empty or dot-prefixed ones and without bytes that need escapes; other paths are rewritten by code outside serveFile.
- Redirects.ServeFile: the entry point with redirect = false and the directory listing's text are not modelled.
- Redirects.StripUndoesInsert: at most three components before the version, because the code splits into five.
- The queue's restart recovery indexes by a nil value and is not modelled; neither are records' deletion, deadlines expiring, or any liveness of delivery.
- JobQueue.InvHolds: a transaction whose commit fails after its send is not modelled; bolt is taken to serialise transactions and commit. The maps of queues and channels, which the goroutines share without a lock, are taken to be read and written one at a time.
- JobQueue.LookupAfterCommit: says nothing of an empty posted body, which a dumped request never is.
- JobQueue.FetchAfterCommit: header and body are one step at the moment of the body; bolt is taken to touch pages only while a transaction commits, and a slice keeps its length.
- JobQueue.WorkerReadsJobs: ids and bodies below 2^63, since a larger id prints as a negative number.
- The HMAC check, URL parsing and size limit of the queue's handler: they decide whether a transaction begins.
- UploadSite.EndToEnd: excludes the empty file, which Upload.CompleteUnlessEmpty covers; two simultaneous uploads of one name and file system faults are not modelled.
- UploadServer.Server.Chunk: names with a slash, which point outside the directory, are treated as plain keys; file system faults are not modelled.
- UploadPool.PoolDrains: a reader whose read failed stays active for ever, as in the page, so the claim is for runs without read errors.
- UploadPool.Page.OnAnswer: file contents and names are left to Upload; the pool only counts bytes.
- JournalMailer.InvHolds: one process run; the position saved by an earlier one is read into a variable that main shadows, so a run begins with no cursor, and the state file is not modelled.
- JournalMailer.NothingMissed: journals only grow and every entry has its own cursor, as the library documents; removal of old journal files is not modelled.
- The mail's transport: a mail is accepted or not, and an accepted one counts once.
