# Verified model of the mail library

This project models the parts of a Go mail library whose behaviour needs a
whole loop, a whole run, or a printer together with its reader to understand,
and proves their properties with Dafny. `dafny verify dfyconfig.toml` checks
everything.

## What is modelled

**The SMTP connection pool** (`SmtpPool`, `PoolOwnership`, `PoolChannels`,
`PoolRuns`, `PoolAnswers`, `PoolObject`). Every region of `smtp/pool.go` under the mutex is one
function of the pool's fields. Between two regions a goroutine is in an explicit
phase: checking an idle connection, dialling, waiting, giving up, returning a
connection, handing one over. A run is any list of actions; an action that is
not enabled changes nothing, so the runs are exactly the interleavings. Dialling,
NOOP, RSET and expiry succeed or fail freely. Callers return only what they
borrowed, once. Three bits of bookkeeping turn "this never happens" into a
statement about states: `floored` (a defensive floor at zero was needed), `stuck`
(a send on a full channel), `swallowed` (nil wake-ups received by waiters that
had given up). `PoolAnswers` says what Get and Put come to: when a caller is
refused, waits or is served, in which order, and which connections come back.
The class `Pool` computes each region in place.

**The background sender** (`BackgroundSending`, `SenderAnswers`, `StopProgress`):
queue, workers, `Stop`, `StopNow`, with the read and write lock; what `TrySend`
answers, and what becomes of each failure. Start is not called once a stop has
begun. The comment on `StopNow` says queued work is discarded; the code hands
every queued e-mail to the sender, with a cancelled context
(`BackgroundSending.StopNowCancelsTheRest`). The model follows the code.

**The IMAP receiver** (`ImapFetch`, `FetchProgress`, `ImapIdle`): the pipeline of `fetch` from
the server through the indexer, the workers and the collector to the caller's
list, and the loop of `Idle`.

**MIME** (`Wire`, `MediaTypes`, `Disposition`, `HeaderBlock`, `Base64`, `MimeTree`, `Message`,
`RawMessage`, `RenderedFields`, `ReadingParts`, `NameRunes`, `StandardMessage`,
`MessageObjects`). A string holds one character
per octet. The renderer is modelled down to the text it leaves in the buffer,
the reader from that text up to the filled-in e-mail. Go's base64 coder follows
section 4 of RFC 4648 and section 6.8 of RFC 2045, its multipart reader section
5.1.1 of RFC 2046. `MediaTypes` reads types and dispositions as Go's `mime`
package does: a malformed type or a parameter given twice with different values
is no type at all, white space and case reach beyond ASCII, and values may come
in extended form or in pieces (sections 3 and 4 of RFC 2231). Address formatting, RFC 2047 words, the date and the message
ID are functions the proofs know nothing about except that they give no line
break. Words that are printed (`multipart/mixed`, `filename*`, ...) are fields of
a record; `StandardMessage.TermsAreSound`, `HeaderBlock.StandardIsSound` and
`Disposition.WordsAreUsable` show that the real ones have the few properties the
proofs use.

**Outlook conversion** (`Text`, `Normalizer`, `OutlookDocument`): the tag
normaliser and `ToOutlookHTML`, with the pattern for empty cells modelled
directly. `NormalizerPieces` says what becomes of each tag, `OutlookContent` that
nothing of a document is lost and where things are put, `OutlookPromises` what
holds of every result. The head block is a parameter that contains the sentinel.
`OutlookFixpoint` says exactly when a second conversion changes nothing. The
proof reads a document's conditions off its skeleton of `<` and `>`
(`OutlookMarks`, `OutlookPlaces`), which every rewrite keeps; shows that no
rewrite makes a sentinel (`OutlookSentinel`); that filling empty cells is a
projection and respects what the normaliser is done with (`OutlookCells`,
`OutlookHalves`, `OutlookSettled`); and follows documents whose head tag is
never closed (`OutlookUnclosed`). `OutlookShipped` has the results for the
shipped literals and at concrete documents.

**The content digest** (`ContentDigest`): the bytes fed to the hash.

**Rate, retries and failover** (`TokenBucket`, `Errors`, `Retry`, `Failover`):
tokens are counted in nanoseconds of credit, tokens times the interval, so all
sums are exact; durations in the retry loop are exact reals. Errors are trees:
a join wraps several errors, `errors.As` takes the first match in depth-first
order, and `errors.Is` looks everywhere.

## Findings

- A waiter whose context ends after it was sent a nil drops the wake-up:
  `PoolRuns.WakeUpCanBeSwallowed` is a run that ends with a queue, a free slot
  and nobody woken. `PoolRuns.NoMissedWakeUp` bounds the loss in every run.
- `ToOutlookHTML` slices out of range exactly when the head tag ends before the
  html tag does (`OutlookDocument.PanicsIff`), as in `<head><html>`
  (`OutlookShipped.HeadBeforeHtml`).
- A document whose head tag is never closed comes out without the sentinel. If a
  closed body tag stands after its html tag, each pass puts the body into one
  more table, which is the growth the sentinel is there to prevent:
  `<body>hi<head` (`OutlookShipped.WrapsForever`). If not, one pass is enough:
  `<html><head` (`OutlookShipped.StaysOpen`). `OutlookFixpoint.IdempotentIff`
  is the exact condition for every document.
- Two e-mails with different recipients can share a digest; which ones do is
  stated exactly (`ContentDigest.DigestsAgree`).
- An e-mail's only body does not always come back where it was; when it does is
  stated exactly (`RawMessage.BodiesSurviveIff`). An e-mail of HTML alone comes
  back as text (`RawMessage.HtmlAloneMoves`).
- An attachment whose own type reads as `multipart/...` is written as an ordinary
  part and read as a container, so the message is refused
  (`StandardMessage.ContainerIsRefused`); exactly when is
  `RawMessage.NoneRefusedIff`. A type that is no type, such as a bare
  `multipart/`, does no harm (`StandardMessage.BareMultipartArrives`).
- The failover sender joins the failures it met, and the first opinion in the
  join decides: a provider that said "try again" before the one that rejected
  the message for good makes the rejection retryable
  (`Failover.RejectionIsHidden`; exactly when, `Failover.JoinedLikeLast`).
- A caller told to come back after a delay, by a bucket whose clock had gone
  back, comes back too early (`TokenBucket.ComingBackOnTime`,
  `TokenBucket.ComingBackTooEarly`). `NewTokenBucket` installs `time.Now`, whose
  readings are monotonic and are taken under the lock (compose.go:173,
  compose.go:200-208), so only a clock put in through the unexported field `now`
  can go back; with the shipped clock every caller comes back on time.
- The first wait of `Retry` is not capped, although `MaxInterval` is documented
  as the maximum interval (provider.go:17). Waits stay within the cap exactly as
  `Retry.WaitsWithinCap` says, and grow monotonically exactly when the initial
  interval is within it (`Retry.BackoffIsMonotone`); with 10 and a cap of 5 the
  second wait is shorter (`Retry.WaitsCanShrink`).

## Model

| member | source | states |
|---|---|---|
| PoolRuns.OpenIsExact | smtp/pool.go:71-305 | in every state of every interleaving `open` is the idle connections plus the active ones plus those in transit; MaxOpen and MaxIdle hold; no floor at zero is ever used |
| PoolRuns.EveryConnectionHasOneOwner | smtp/pool.go:71-248 | no connection is in two places, and the active ones are exactly those a caller, a channel, or a Put in its first or last step holds |
| PoolRuns.EveryWaitIsAnswered | smtp/pool.go:118-165 | a send under the lock never finds its channel full, no channel is sent two values, every waiting or cancelled receiver is answered, and a value in a channel has its receiver left |
| PoolRuns.NoMissedWakeUp | smtp/pool.go:224-232 | while there is a queue nothing is idle, and the free slots number at most the woken waiters that have not retried, plus the wake-ups swallowed |
| PoolRuns.EveryFreeSlotIsAnnounced | smtp/pool.go:296-305 | in a run that swallows no wake-up, the bound holds without that term |
| PoolRuns.SwallowedCounts | smtp/pool.go:138-154 | a wake-up is swallowed exactly by a step of line 151 that receives nil |
| PoolRuns.WakeUpCanBeSwallowed | smtp/pool.go:138-154 | a concrete run of three callers that ends with a queue, a free slot and nobody woken |
| PoolRuns.AfterClose | smtp/pool.go:251-277 | after Close, in the rest of every run, idle and queue stay empty, `open` never rises, equals what is still out, and is zero once nothing is |
| PoolAnswers.GetIsAnswered | smtp/pool.go:73-122 | in every reachable state one turn of Get's loop is refused on a closed pool, takes the newest idle connection to check it, takes a slot while there are any, and otherwise waits last in the queue or is refused as full, exactly as Wait says |
| PoolAnswers.NobodyWaits | smtp/pool.go:112-122 | without Wait the queue is empty and no caller blocks, in every reachable state |
| PoolAnswers.GetEnds | smtp/pool.go:71-185 | Get ends only with a connection that was checked, dialled or handed over and that nobody held, or with nothing because the pool is closed or full, dialling failed or the caller gave up; a dead idle connection sends it round again |
| PoolAnswers.NobodyIsOvertaken | smtp/pool.go:118-232 | the queue is in the order of asking, and whoever was sent a connection or a wake-up asked before everyone still in it |
| PoolAnswers.DiscardedForGood | smtp/pool.go:93-213 | a connection that failed its NOOP or RSET, is too old, was put back with an error, or came too late for a cancelled waiter is never idle, in a channel or lent again in any run |
| PoolAnswers.HealthyComesBack | smtp/pool.go:216-247 | a healthy connection that is put back goes to the head of the queue, else becomes the newest idle one while there is room, else is gone with its slot free |
| PoolAnswers.CleanPutReplaces | smtp/pool.go:188-214 | a Put without an error, of a connection that is neither too old nor fails RSET, gets to that point |
| PoolAnswers.AliveIsLent | smtp/pool.go:84-109 | an idle connection that passes its check is lent to the caller that checked it |
| PoolRuns.InvariantKept | smtp/pool.go:71-305 | every step of every goroutine keeps ownership, channel and counting invariants together |
| PoolOwnership.OwnershipKept | smtp/pool.go:71-248 | every step keeps each connection with one owner and `active` in line with who that is |
| PoolChannels.ChannelsKept | smtp/pool.go:118-165 | every step keeps wait channels fresh while queued, sent at most once and answered |
| PoolRuns.CountsKept | smtp/pool.go:71-305 | every step keeps the slot count, the limits and the wake-up bound |
| PoolChannels.SendNilsSpec | smtp/pool.go:267-270 | waking all distinct queued channels puts a nil into each and into no other |
| PoolObject.Pool.constructor | smtp/pool.go:59-68 | a new pool is empty, with a non-positive MaxIdle replaced |
| PoolObject.Pool.TryGet | smtp/pool.go:73-122 | the region at the top of Get's loop, in place |
| PoolObject.Pool.RemoveWaiter | smtp/pool.go:126-136 | the search loop drops the first occurrence of the channel and reports whether there was one |
| PoolObject.Pool.EnterActive | smtp/pool.go:105-107 | a connection that passed its check, or was just dialled, becomes active, in place |
| PoolObject.Pool.LeaveActive | smtp/pool.go:193-196 | a connection that is put back stops being active, and whether it was is reported, in place |
| PoolObject.Pool.PutHealthy | smtp/pool.go:216-247 | the last region of Put, in place |
| PoolObject.Pool.Close | smtp/pool.go:251-277 | Close with its loop over the queue, in place |
| PoolObject.Pool.DecOpenLocked | smtp/pool.go:296-305 | one slot less and one waiter woken, in place |
| PoolObject.Pool.Post | smtp/pool.go:303-303 | a channel send, in place |
| BackgroundSending.NeverPanics | worker.go:54-145 | no run sends on a closed channel or closes one twice |
| BackgroundSending.NothingIsLost | worker.go:73-89 | every accepted e-mail is queued in its place, or in the hands of the worker that took it, or was handed to the sender, as the very e-mail that was accepted; and their numbers add up |
| BackgroundSending.StopDeliversExactlyOnce | worker.go:103-123 | when a stop has returned and a worker was ever started, every accepted e-mail was handed over, exactly once |
| BackgroundSending.StopKeepsTheContextLive | worker.go:97-112 | unless StopNow was called, no send begins with or sees a cancelled context, and the context is cancelled only after every worker has finished |
| BackgroundSending.StopNowCancelsTheRest | worker.go:114-123 | once the context is cancelled, every call of the sender that begins later sees it cancelled |
| StopProgress.NeverStuck | worker.go:103-145 | in every reachable state of a stop that has not returned, some step of the stop, of a worker, of a call of the sender or of a TrySend inside is possible and lowers a measure |
| StopProgress.StepsAreBounded | worker.go:103-145 | in any run after a stop has begun, the steps that lower the measure number at most what it was, and five more for each TrySend that still got in before the lock |
| StopProgress.StopReturns | worker.go:103-123 | from every reachable state of a stop those steps alone bring it to its return |
| BackgroundSending.InvariantKept | worker.go:54-145 | every step keeps the flags in line with the stage of the stop, and the ledger of e-mails |
| SenderAnswers.TrySendAnswers | worker.go:73-89 | in every reachable state an e-mail is accepted exactly when the sender is not stopped and there is room in the buffer or a worker waiting, and then it is last in the queue or in that worker's hands; it is refused as stopped exactly once the flag is set, and as full only with the buffer full to its capacity |
| SenderAnswers.NeverOverfull | worker.go:40-52 | neither channel ever holds more than the buffer size |
| SenderAnswers.FailuresAreConserved | worker.go:134-145 | in every run and for every e-mail, each failed send is about to be reported, in the channel, heard by a waiting reader, read, or was dropped because the channel was full; nothing else is reported |
| SenderAnswers.StopWaitsStopNowDoesNot | worker.go:103-123 | only StopNow makes a stop that cancels first; it does so at once, while Stop waits until all workers have finished |
| SenderAnswers.StartAddsWorkers | worker.go:55-63 | as many workers as asked for, and at least one |
| BackgroundSending.Sender.TrySendLocked | worker.go:79-88 | TrySend's body refines its specification |
| BackgroundSending.Sender.MarkStopped | worker.go:127-132 | both steps under the write lock, in place |
| BackgroundSending.Sender.ReportFailure | worker.go:138-142 | a report goes to a reader that is waiting, else into the buffer, and is dropped when there is room in neither |
| BackgroundSending.Sender.constructor | worker.go:40-52 | a negative buffer counts as none |
| ImapFetch.NoErrorIff | imap/imap.go:450-626 | fetch returns without error exactly when nothing was cancelled, FETCH succeeded and no delivered message has a body that cannot be read |
| ImapFetch.ErrorIs | imap/imap.go:569-597 | which error it is: the read failure, FETCH's or both, by what failed; after a cancellation the context's, unless a read had failed |
| ImapFetch.CollectedIsGenuine | imap/imap.go:545-561 | cancelled or not, every mail collected under a number is that of the message delivered under it, with its identity and mailbox |
| ImapFetch.FetchIsScheduleIndependent | imap/imap.go:497-577 | for every interleaving that was not cancelled, the mails collected by index are the parseable messages in delivery order |
| ImapFetch.FetchResult | imap/imap.go:569-626 | no error means exactly the mails of the delivered messages that parse, last delivered first; an error that is no cancellation means the same in delivery order; a cancellation leaves some of them, in delivery order |
| ImapFetch.Gather | imap/imap.go:598-625 | the list is rebuilt by index up to the largest one collected, and reversed unless there was an error |
| ImapFetch.ReverseInPlace | imap/imap.go:621-623 | the swap loop reverses the array |
| ImapFetch.CollectedInOrder | imap/imap.go:601-614 | a map from delivery numbers to the mails of those messages, listed by number, is the mails of the messages that parse, in order |
| ImapFetch.InvariantReached | imap/imap.go:464-577 | in every state, cancelled or not, each item in the pipeline is a delivered message under its own number, and nothing is dropped while nothing is cancelled |
| FetchProgress.NeverStuck | imap/imap.go:464-577 | in every reachable state that has not returned, with FETCH ended or something left to index, some step of indexer, workers, collector or caller is possible and lowers a measure |
| FetchProgress.StepsAreBounded | imap/imap.go:464-577 | once FETCH has ended, any run has at most as many such steps as the measure says |
| FetchProgress.FetchReturns | imap/imap.go:569-577 | from every reachable state in which FETCH has ended those steps alone bring fetch to its return |
| ImapIdle.CommandsNeverOverlap | imap/imap.go:376-444 | no SEARCH, FETCH or IDLE is ever issued while an IDLE is outstanding, and no round closes `stop` twice |
| ImapIdle.DrainedUpdateIsSearched | imap/imap.go:354-421 | a drained update not yet followed by a SEARCH keeps the loop bound for one, and within six of its steps a SEARCH has begun or the loop has ended |
| ImapIdle.CloserAlong | imap/imap.go:397-444 | every step of every run brings the main loop closer to a SEARCH or to its end |
| ImapIdle.FoundMailIsHandedOn | imap/imap.go:414-443 | a SEARCH that found unseen mail is followed at once by a FETCH, and the loop does not idle again before that FETCH has succeeded and its mails were handed on; one that found nothing goes back to a new IDLE |
| ImapIdle.LoopEndsIff | imap/imap.go:397-443 | the loop is on its way out exactly when the context was seen done or IDLE, its end, a SEARCH, a FETCH or handing on failed, and then no SEARCH begins any more |
| ImapIdle.OnlyNewsInterrupts | imap/imap.go:353-409 | without a mailbox update nothing pokes the loop, and IDLE is interrupted only to leave |
| Base64.BodyRoundTrip | utils.go:768-782 | a written body, with or without line breaks after it, is read back exactly when it is within the part size, and refused as too large otherwise |
| Base64.WriteMimeBase64 | utils.go:1194-1202 | however the encoder cuts up its output, what is written is the encoding in lines |
| Base64.Writer.Write | utils.go:1166-1192 | the loop that fills lines keeps the output and its column in line with all that was ever written |
| Base64.Writer.constructor | utils.go:1161-1164 | a writer starts at column zero of an empty output |
| Base64.LinesShape | utils.go:1161-1192 | every line but the last has 76 characters, the last at most 76, and none is empty unless the body is |
| Base64.DecodeEncode | utils.go:1194-1202 | decoding an encoding gives the data back, for every byte string |
| Base64.StripWrapped | utils.go:773-779 | ignoring line breaks undoes the wrapping |
| Base64.StripCut | utils.go:772-772 | of any first stretch of a wrapped body at least nine characters in ten are letters |
| Base64.DecodeCut | utils.go:772-779 | an encoding cut short still gives every whole group |
| Base64.EncodeAlphabet | utils.go:1194-1202 | an encoding has only letters, digits, `+`, `/` and padding |
| Base64.Vectors | utils.go:1194-1202 | the alphabet and the padding are those of RFC 4648, at published and other examples |
| Wire.SplitPrint | utils.go:1278-1289 | cutting the text at line ends gives exactly the printed lines |
| Wire.ReadPrintedFields | utils.go:1281-1289 | a printed block ends at its first empty line, and the first colon of each line recovers name and trimmed value, in order |
| Disposition.SanitizeIsLegal | utils.go:951-968 | what comes out has no control character but tab, a legal value is untouched, and sanitising twice changes nothing |
| NameRunes.SanitizeKeepsTheRest | utils.go:951-964 | of a text that may not stand in a header every rune that may is kept, in order, and no other |
| NameRunes.RunesMakeTheText | utils.go:951-964 | the runes of valid UTF-8 are all of it |
| NameRunes.AsciiShowsEachRune | utils.go:1094-1108 | the plain name has one character for each rune, itself if it is printable ASCII and `_` otherwise |
| Disposition.SanitizeHeaderValue | utils.go:951-964 | the loop over runes refines the specification |
| Disposition.AsciiFilename | utils.go:1094-1108 | the loop over runes refines the specification |
| Disposition.QuoteFilename | utils.go:1112-1125 | the escaping loop refines the specification |
| Disposition.Rfc2231Escape | utils.go:1129-1144 | the escaping loop refines the specification |
| Disposition.FormatDisposition | utils.go:1063-1080 | the value is built piece by piece |
| Disposition.UnquoteQuoted | utils.go:1112-1125 | the first unescaped quote of a printed name is the one that closes it, and unescaping gives the name back |
| Disposition.DecodeEscaped | utils.go:1129-1153 | percent-decoding undoes the escaping for every octet string |
| Disposition.DispositionRoundTrip | utils.go:1063-1080 | for every file name a reader gets back the kind and exactly the sanitised name, or none if that is empty |
| Disposition.FormatIsPrintable | utils.go:1063-1153 | whatever the name, the value is printable ASCII, so it stays on its line |
| MediaTypes.ReadPrinted | utils.go:719-720 | a printed parameter is read back with its name and its value, whatever follows |
| MediaTypes.ParsePrinted | utils.go:719-720 | a well-formed lower-case type reads as itself before any parameters, unless two of them conflict |
| HeaderBlock.BlockReadsBack | utils.go:1281-1335 | the rendered block reads back as the fields that were written, in order, and ends where the body begins |
| HeaderBlock.EachFieldOnce | utils.go:1291-1335 | each field of the builder's own appears at most once, whatever the caller supplied and however it is capitalised |
| HeaderBlock.NothingForged | utils.go:1317-1335 | no Bcc and no trace field is ever written |
| HeaderBlock.NoContentFields | utils.go:988-998 | the caller's headers never bring a Content-Type or a transfer encoding |
| HeaderBlock.CustomHasNone | utils.go:1317-1335 | no field of a reserved or trace name comes from the caller's headers, whether or not the builder writes its own |
| HeaderBlock.CustomHolds | utils.go:1317-1335 | a caller's field is written exactly when its name is not skipped and its encoded value not empty |
| HeaderBlock.CustomFailsIff | utils.go:1041-1052 | the builder fails exactly when a name that is not skipped is illegal, and names such a one |
| HeaderBlock.SortedKeysUnique | utils.go:1488-1501 | there is one ascending enumeration of the names, so rendering twice gives the same bytes |
| HeaderBlock.BlockIsPrintable | utils.go:973-984 | every name is legal and no value holds a line break |
| HeaderBlock.StandardIsSound | utils.go:613-624 | the real field, reserved and trace names have the properties the other results use |
| RenderedFields.BccIsInvisible | utils.go:1296-1303 | whoever the blind recipients are, the block is the same |
| RenderedFields.RenderedFieldsAreRight | utils.go:1243-1445 | in the text of a rendered message From, To, Cc, Reply-To, Subject, MIME-Version, Date and Message-ID each say their own and nothing else, each header of the caller's that is taken over says what the caller set, and the declared type is that of the content |
| RenderedFields.CallersFieldIsTaken | utils.go:1317-1335 | a caller's header is taken over unless its name is one of the builder's own, Bcc or a trace field |
| RenderedFields.ShownInlineIff | utils.go:1469-1479 | an attachment is marked to be shown in the text exactly when it has a content ID |
| HeaderBlock.Builder.WriteHeader | utils.go:1281-1289 | a field with a value is appended as one line, one without is not |
| HeaderBlock.Builder.WriteOwn | utils.go:1291-1315 | the builder's own fields in order |
| HeaderBlock.Builder.WriteCustom | utils.go:1317-1335 | the loop over the caller's names appends their fields or stops at the first illegal name |
| HeaderBlock.Builder.BuildHeader | utils.go:1291-1335 | the whole block, or the illegal name |
| MimeTree.ParseMultipartPrinted | utils.go:690-715 | reading a printed multipart body processes exactly its parts, in order; what follows it does not matter |
| MimeTree.UntilOf | utils.go:696-713 | a part's content ends at the first line that can be a delimiter |
| ReadingParts.EveryPartArrives | utils.go:690-766 | reading any parts that decode, whoever printed them: body text that does not say it is a file sets the bodies, the last of each type winning, and every other part becomes an attachment, in order, with its data, type, name and content ID; none is lost |
| ReadingParts.NestingIff | utils.go:690-725 | text is found in up to ten containers inside one another, and refused in more |
| ReadingParts.PreambleIsSkipped | utils.go:698-705 | what stands before the first delimiter does not count |
| ReadingParts.OnlyBodyIsRead | utils.go:537-551 | a message whose type is missing, or no container's, has one body, whatever the type: what its transfer encoding decodes to |
| ReadingParts.MalformedTypeIsText | utils.go:542-545 | a message whose type is malformed has its body taken as it stands, without an error |
| Message.ProcessItem | utils.go:717-766 | reading one rendered part puts its data where it belongs, or refuses it: for its size, or because its own type makes it a container without an end |
| Message.ProcessAlternative | utils.go:1389-1412 | reading the nested container delivers both bodies |
| Message.ReadItems | utils.go:690-766 | printing any items as a multipart body and reading it delivers the items in order, up to the first that is refused |
| Message.BodyHasNoDashes | utils.go:1194-1202 | no line of an encoded body begins with two dashes |
| Message.InnerIsNoDelimiter | utils.go:1393-1404 | no line of a nested body can be taken for the outer delimiter |
| RawMessage.ReadTopParts | utils.go:1381-1440 | whether the bodies are nested or not, reading the rendered parts delivers bodies and attachments in order |
| RawMessage.ReadRendered | utils.go:506-554 | the text of a rendered message, read from its first byte, gives what the content amounts to |
| RawMessage.RenderThenParse | utils.go:1243-1445 | the same with the header block the builder writes, whatever headers the caller asked for |
| RawMessage.DeliveredIff | utils.go:679-688 | reading fails exactly when something in the e-mail is refused |
| RawMessage.NoneRefusedIff | utils.go:717-725 | nothing is refused exactly when everything is within the part size and no attachment's own type reads as a container's |
| RawMessage.ContentArrives | utils.go:1337-1445 | an e-mail of which nothing is refused arrives with every attachment in order, with its data, name, type and content ID, and with its bodies |
| RawMessage.BodiesSurviveIff | utils.go:546-551 | the bodies come back where they were exactly when both are set, or the only one is read back to its own field |
| RawMessage.HtmlAloneMoves | utils.go:546-551 | an e-mail with only an HTML body is read back with that body as its text |
| StandardMessage.MessageRoundTrip | utils.go:1243-1445 | with the words the library prints, for every e-mail: refused exactly when something is too large or an attachment poses as a container, otherwise all attachments with their data, sanitised names and types in order, each content ID unchanged exactly when it is legal and brings no angle brackets, and the bodies exactly under the stated condition |
| StandardMessage.IdRoundTrip | utils.go:1470-1477 | a content ID comes back unchanged exactly when a header can hold it and it neither begins nor ends with an angle bracket |
| StandardMessage.ContainerIsRefused | utils.go:717-725 | an e-mail with an attachment of type `multipart/mixed` is refused for its missing boundary, whatever the attachment holds |
| StandardMessage.BareMultipartArrives | utils.go:717-725 | an attachment of type `multipart/` is not taken for a container |
| StandardMessage.TermsAreSound | utils.go:1447-1484 | the real media types, names and parameters have the properties the other results use |
| MessageObjects.RenderMessage | utils.go:1243-1445 | the renderer, appending to its buffer, leaves exactly the printed message, or fails on the illegal header name |
| MessageObjects.WriteBodies | utils.go:1387-1430 | the bodies are written in a container, side by side, or alone |
| MessageObjects.WriteRest | utils.go:1432-1443 | the loop over the attachments and the closing delimiter |
| MessageObjects.WriteBodyPart | utils.go:1447-1457 | one body part |
| MessageObjects.WriteAttachmentPart | utils.go:1459-1484 | one attachment part |
| MessageObjects.WrittenFirst | utils.go:1381-1443 | what the writer leaves, with line breaks between parts, is the printed form of the parts |
| MessageObjects.Email.ParseMultipart | utils.go:690-715 | the reading loop fills the e-mail in place as specified, including what it holds when an error stops it |
| MessageObjects.Email.ProcessPart | utils.go:717-766 | one part fills the e-mail in place as specified |
| MessageObjects.Email.Keep | utils.go:732-766 | the decoded data becomes an attachment or a body, in place |
| Normalizer.NormalizeIsIdempotent | outlook/outlook.go:366-417 | a second pass changes nothing, for every byte string |
| Normalizer.NormalizeTwice | outlook/outlook.go:366-417 | so with any attributes that begin with a blank, end with a quote and name `role` and `border` |
| Normalizer.NormalizeOnlyAdds | outlook/outlook.go:366-417 | the input is a subsequence of the output |
| NormalizerPieces.PiecesBecome | outlook/outlook.go:366-417 | the result has the same pieces in the same order: text and comments as they were, tables without a role and images without a border with the attributes before the end of their tags, and every other tag as it was |
| NormalizerPieces.NormalizedPieces | outlook/outlook.go:366-417 | so with the shipped attributes: no table in the result is without a role, no image without a border |
| Normalizer.AppendNormalized | outlook/outlook.go:366-417 | the loop over the document refines the specification |
| Normalizer.AppendBlock | outlook/outlook.go:377-415 | the loop's body after a `<` refines the specification |
| Normalizer.AppendWith | outlook/outlook.go:397-403 | the attributes go before the end of the tag, self-closing or not |
| OutlookFixpoint.IdempotentIff | outlook/outlook.go:244-334 | for every document: a second conversion changes nothing exactly when there is nothing to convert, or the first marks the document, or its head tag is never closed and there is no body to wrap |
| OutlookShipped.ShippedIdempotentIff | outlook/outlook.go:203-334 | so with the namespaces, tables and wrappers the library ships |
| OutlookFixpoint.MarkedIff | outlook/outlook.go:249-334 | of the documents that are converted, those come out with the sentinel whose head tag, if any, is closed and does not end before the html tag, and no others |
| OutlookShipped.ShippedMarkedIff | outlook/outlook.go:203-334 | so with what the library ships |
| OutlookShipped.StandardIsClean | outlook/outlook.go:203-334 | the shipped declarations, container and attributes are as these results need them |
| OutlookShipped.WrapsForever | outlook/outlook.go:303-331 | a document that a second conversion wraps again |
| OutlookShipped.StaysOpen | outlook/outlook.go:280-331 | a document that is not marked and yet is converted for good by one pass |
| OutlookShipped.HeadBeforeHtml | outlook/outlook.go:275-294 | a document on which the conversion slices out of range |
| OutlookUnclosed.WrapsAgain | outlook/outlook.go:303-331 | a pass over a document with an open head and a body to wrap leaves such a document again, with more tags in it |
| OutlookUnclosed.UnclosedStaysUnmarked | outlook/outlook.go:264-334 | what is written without the head block holds no sentinel if the document held none |
| OutlookFixpoint.UnwrappedAgain | outlook/outlook.go:267-334 | without a body to wrap, completing the html tag, normalising and filling cells is done after one pass |
| OutlookSettled.SettledFix | outlook/outlook.go:177-183 | filling empty cells leaves a document that the normaliser leaves alone one that it leaves alone |
| OutlookCells.FixTwice | outlook/outlook.go:177-183 | filling empty cells leaves none to fill, for every byte string |
| OutlookMarks.MarksFix | outlook/outlook.go:177-183 | filling empty cells keeps the order of all `<` and `>` and which of them open html, head and body tags |
| OutlookMarks.MarksNormalize | outlook/outlook.go:366-417 | so does the normaliser |
| OutlookDocument.FixKeepsSentinel | outlook/outlook.go:181-183 | rewriting empty cells never destroys the sentinel |
| OutlookDocument.PanicsIff | outlook/outlook.go:275-294 | the conversion slices out of range exactly when the head tag ends before the html tag does |
| OutlookContent.NothingIsLost | outlook/outlook.go:244-334 | for every document that can be converted, fragment or whole: all of it is in the result, in order, up to case and white space |
| OutlookContent.ConversionIsWoven | outlook/outlook.go:264-331 | a fragment stands normalised in the container of a whole document; a document has the head block in its head and the container's tags around the content of its body, normalised |
| OutlookContent.FixShows | outlook/outlook.go:177-183 | filling empty cells loses nothing but white space and the case of the cells' tags |
| OutlookPromises.HtmlTagIsComplete | outlook/outlook.go:223-291 | a document with an html tag comes out with one that declares every namespace and a language |
| OutlookPromises.NoCellIsEmpty | outlook/outlook.go:177-183 | no cell of a converted document is empty |
| OutlookPromises.EmptyCellIff | outlook/outlook.go:177-177 | the pattern is found exactly where there is an opening cell tag, white space and a closing cell tag, in any case |
| OutlookPromises.LeftAloneIff | outlook/outlook.go:181-183 | a document is left alone exactly when it has no empty cell |
| OutlookPromises.LeftmostIsFilled | outlook/outlook.go:181-183 | the leftmost empty cell gets a non-breaking space, what stands before it stays, and so on after it |
| OutlookDocument.Convert | outlook/outlook.go:244-334 | the conversion, appending to its buffer, refines the specification |
| ContentDigest.DigestsAgree | identity.go:119-151 | two e-mails that are not blank share a stream exactly when one is the other with some attachments read as bodies and bodies as recipients |
| ContentDigest.DigestIsUnique | identity.go:119-151 | with equally many recipients the stream determines every field it covers |
| ContentDigest.Twins | identity.go:140-149 | every e-mail with an attachment has a twin with two more recipients and the same stream |
| ContentDigest.NoDigestIff | identity.go:119-124 | only an e-mail that is nothing but recipients and a date has no digest |
| ContentDigest.ParseStream | identity.go:126-133 | the length-prefixed stream can be taken apart into its fields |
| ContentDigest.BigEndianAt | identity.go:128-130 | each of the eight bytes is the length shifted by the bytes that follow |
| ContentDigest.Digest | identity.go:119-151 | the loops feed the hash exactly the fields in order, or nothing for a blank e-mail |
| ContentDigest.Hash.WriteField | identity.go:126-133 | the eight-byte array loop and the two writes |
| TokenBucket.CreditIsConserved | compose.go:200-226 | over any run credit is earned only by time and spent only on grants or spilled from a full bucket |
| TokenBucket.RateBound | compose.go:200-226 | over any run, whatever the clock does, grants are at most the credit then plus the advance of `last`, and at most burst plus advance over interval |
| TokenBucket.WindowBound | compose.go:146-160 | readings up to some moment are granted at most a burst and one for each interval up to it |
| TokenBucket.InvAlong | compose.go:208-214 | tokens stay between zero and the burst |
| TokenBucket.DelayIsExact | compose.go:216-226 | with no grant in between, a later call succeeds exactly from the announced delay on |
| TokenBucket.ComingBackOnTime | compose.go:207-226 | a call after exactly the announced delay succeeds if and only if the first reading was not behind |
| TokenBucket.ComingBackTooEarly | compose.go:207-226 | with a first reading behind the bucket's clock, a caller that comes back when told is refused again |
| TokenBucket.WithoutAnInterval | compose.go:204-206 | without an interval every call is granted and the bucket never changes |
| TokenBucket.TwoTurnsSuffice | compose.go:178-196 | a caller waiting alone on a steady clock is let through by its second turn |
| TokenBucket.WaitEnds | compose.go:178-196 | waiting goes on through turns that are refused while the context lives, and ends with the first other one: ready if that is granted, cancelled otherwise |
| TokenBucket.Bucket.constructor | compose.go:161-175 | a burst below one and a negative interval are replaced; the bucket starts full |
| TokenBucket.Bucket.Reserve | compose.go:200-226 | the update in place refines the specification |
| TokenBucket.Bucket.Wait | compose.go:178-196 | the waiting loop ends with the first grant or the first sight of a done context |
| Retry.CallCount | provider.go:214-262 | with a live context the function is called up to the first success or permanent failure, at most MaxRetries + 1 times, and the result is that call's |
| Retry.NeverTooMany | provider.go:221-243 | whatever the context does, no call follows an interruption, a success or a permanent failure |
| Retry.EndingIs | provider.go:214-262 | whatever the context does, the ending is that of the last call: success, a failure that is permanent or used up the last retry, or an interruption that hands on the failure it followed; with exactly as many waits |
| Retry.Waits | provider.go:240-258 | each wait is the server's hint if there is one, else the initial interval first and then the lesser of initial times multiplier to the power i and the cap |
| Retry.WaitsArePositive | provider.go:196-258 | no wait is without length, computed or asked for |
| Retry.BackoffIsMonotone | provider.go:254-257 | the waits never shrink exactly when the initial interval is within the cap |
| Retry.WaitsWithinCap | provider.go:240-258 | in every run, no wait that is not a server's hint passes the cap exactly when the initial interval is within it, or nothing is waited for, or the first wait is a hint |
| Retry.WaitsCanShrink | provider.go:254-257 | with an initial interval past the cap the second wait is shorter than the first |
| Retry.TotalWait | provider.go:214-262 | without hints the waits sum to at most the initial interval plus the cap for each further retry |
| Errors.RetryableIff | provider.go:182-195 | for every tree of errors: it is retried exactly when the context is nowhere in it, and something says yes before anything says no or nothing says anything and the bare mark is nowhere in it |
| Errors.SearchesRead | provider.go:186-205 | the searches through a tree are searches through its depth-first listing |
| Errors.MarkedIsFinal | provider.go:163-174 | what NonRetryable marks is not retried, whatever messages are wrapped around it |
| Retry.InterruptionIsFinal | provider.go:221-226 | the error of an interrupted retry loop is never itself retried, whatever the last failure was |
| Failover.Send | compose.go:45-78 | the walk over the senders refines its specification |
| Failover.OnlyTheLastIsFinal | compose.go:68-71 | the walk goes on only past failures worth retrying |
| Failover.SendReturns | compose.go:45-78 | the walk passes over absent senders and failures worth trying elsewhere; it returns nothing if the first other one sends, else every failure met, in order, with the context's error if that ended it, and a permanent error if there was nobody to try |
| Failover.JoinedLikeLast | compose.go:52-77 | joined failures are classified like the last of them exactly when that one is worth retrying or the context's, or no earlier one has an opinion |
| Failover.FailoverClassification | compose.go:45-78 | so for the error the failover sender returns, and a walk the context ended is never retried |
| Failover.RejectionIsHidden | compose.go:67-71 | a busy provider before the one that rejects the message makes the rejection retryable |
| Retry.Normalize | provider.go:33-48 | the result has sensible parameters, and a sensible configuration is untouched |
| Retry.Retry | provider.go:214-262 | the loop refines its specification |

## Left out

- Network clients, dialling, TLS, vendor APIs, S3 and URL templates: plumbing over libraries that are not modelled.
- DKIM, webhooks, SHA-256 and random boundaries; boundaries are assumed distinct, equally long and in need of no quoting.
- Addresses, RFC 2047 words and message IDs are unknown functions that give no line break; reading the address fields of a message is not modelled.
- Folded header lines, limits on header size and the quoted-printable and plain decoders themselves; the last two are parameters of the reader.
- Which of two errors is reported when a part is both unterminated and too large.
- The failover sender's callback and the composed senders' Ping: neither has a part in what Send returns.
- Buffers that already hold headers before rendering: rendering starts from an empty buffer, as in both exported functions.
- Floating-point rounding and 64-bit overflow in the token bucket and the retry loop.
- Wall-clock statistics, logging, telemetry, test doubles; creation and last-use times of pooled connections, whose expiry is a free choice of the run.
- BackgroundSending.StopDeliversExactlyOnce: covers runs in which Start is not called once a stop has begun.
- ImapFetch.FetchResult: one literal per message, as FETCH of a whole message gives; a context that ends after fetch has returned is not looked at.
- ImapIdle.FoundMailIsHandedOn: handing on the mails of one FETCH is one step.
- Suppression lists, domain checks, webhook field mapping, POP3, IMAP flag operations and the MSO builders: each would only add easy members.
