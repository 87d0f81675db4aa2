# A verified model of Hexeris's protocols

Hexeris is a self-hosted messenger: a Go server over PostgreSQL and a JavaScript web client. This project models
the parts of it in which a protocol, an interleaving or some arithmetic has to be right over every run, and proves
what those parts are for. `dafny verify dfyconfig.toml` checks everything.

| module | what it models |
|---|---|
| `FileCrypt`, `RangeServing` | uploads encrypted with AES-CTR, the seek into a key stream, HTTP ranges |
| `Rotation` | key rotation as a system of durable steps that may stop anywhere, and its crash invariant |
| `RotateKey` | the `rotate-enc-key` subcommand, with every effect able to fail or to be the last, and the start-up guard |
| `MessageTable` | the messages table under the idempotent multi-row insert, and deduplication inside a batch |
| `MsgWriter` | one batched writer: its waiters, its reply channels, its three failure paths |
| `Outbox`, `Delivery` | the client's persistent outbox, and client, sockets, handlers, queue, writers and table interleaved |
| `DeliveryProgress` | what single steps do to each other's frames, and that every outbox can be delivered from every state |
| `Paging`, `History` | the three-branch history query and the forward sync loop of the client |
| `Reactions` | the reaction log that keeps the last toggle only, and its replay in the client |
| `Groups` | the group handlers with their membership cache |
| `Limiter` | the sliding-window limiter over slices that are compacted in place |
| `Totp`, `Tickets` | one-time codes, and the ticket between password and code |
| `TwoFactor` | the second factor's handlers interleaved between statements |
| `UnfurlCache` | the two-layer preview cache and its coalescing of fetches |
| `DeliveryRuns`, `TwoFactorRuns` | runs from the initial state to the states in which a promise fails |
| `Common`, `Text` | shared vocabulary, and the few string operations of the standard library that are needed |

## How to read it

Code that changes state step by step is a class or a method with loops (`Host`, `CtrStream`, `Reply`, `Client`,
`Browser`, `ReactionSync`, `GroupServer`, `RateLimiter`, `TicketStore`, `PreviewCache`, `Flights`); each method's
contract ties the new state to a specification function, and the lemmas are about those functions. Where several
processes interleave (`Rotation`, `Delivery`, `TwoFactor`) the model is a set of atomic steps, a run is any sequence
of them, and a step that is not possible in its place does nothing. Choices that belong to the environment (a crash, a
failure, a lost socket, a panic, a restart, growth of a table) are nondeterministic values or parameters of a step. What
an environment does not do is a constant of the object that stands for it (`reliable`, `sighted`, `healthy`, `steady`,
`up`, `whole`).

PostgreSQL is a table with atomic statements. AES, GCM, HMAC-SHA-1 and SHA-256 are arbitrary functions: the CTR results
hold for every block function, the rotation results for every authenticated encryption that opens exactly what was
sealed under the same key and for fingerprints that tell the two keys apart (`Rotation.Ideal`). Integers are
unbounded except where the program's width matters: the 64-bit words of the counter, the parse of a range, and the
31-bit truncation of a hash are written out.

## What came out

Most of what the code and its comments promise is proved as it stands. Where a promise does not hold in general, the
model keeps the code as it is and says exactly when it does hold:

- A journal query that fails reads as "not done" (server/rotatekey.go:463-468). For a file that was journaled and not
  yet renamed this removes the only complete copy, in a dry run too; no later run brings it back, and the fingerprint is
  written all the same (`Rotation.Job.CopyLost`, `LostForGood`, and `ALostFile` as a run from the start). A file that was
  moved is re-keyed a second time (`RekeyedTwice`). A failed look at the copy (server/rotatekey.go:408-417) passes the
  file for done and lets the fingerprint come early (`FingerprintTooEarly`). Both reads may fail in `RotateKey.Host`;
  `RotateKey.EntryIsSafeExactlyIf` and `RotateKey.MisreadIsSafeExactlyIf` say which failures do no harm. A run that took
  no such failure at its word keeps every promise; `Finished` implies that all is done only then, and
  `RotateKey.FinishUndisturbed` says of any past when the files still come out right. Rows are never lost
  (`Rotation.Job.WildKeepsRows`).
- An insert into the journal that was applied but reported as failed leaves an entry without its copy, as the code
  removes it (server/rotatekey.go:446-453): `Rotation.Job.EntryWithoutCopy`.
- A message says that the wrong old key does not spoil the data (server/rotatekey.go:169-170). That is true of the rows,
  which are authenticated. The program continues when the fingerprint cannot be read (server/rotatekey.go:172-174), and a
  file under a third key then keeps its plaintext exactly if the two keys agree on it: `Rotation.Job.WrongOldKey`.
- Rotation looks at the magic alone (server/rotatekey.go:471-485), serving also at the length
  (server/filecrypt.go:175-181). A legacy file of 4 to 19 bytes that begins with the magic makes every run report a failure:
  `RotateKey.FinishUndisturbed` finishes exactly without one.
- Nothing asks why an iteration over rows ended. The list of secrets may be cut, miss a row that could not be scanned,
  or be empty because the users table cannot be read (server/rotatekey.go:341-355), and the fingerprint is written all the
  same. Messages are paged behind a cursor, so a cut page does no harm unless it is cut to nothing, which ends the pass
  (server/rotatekey.go:288-298). A finished run has rotated a table exactly if no row that was not listed needed the old
  key when it began (`RotateKey.FinishUndisturbed`); over histories with the same cuts, exactly if none did from the start
  (`Rotation.Job.CutListingsStay`, with `Rotation.Job.ACutListing` and `Rotation.Job.OneUnreadSecret` as runs).
- The history endpoints do the same, and pass cleared rows over after the limit was applied (server/history.go:239-248).
  The client takes any short page for the last one (web/js/history.js:171). What lies between its cursors is complete all
  the same. If no iteration ends early, nothing above is missing exactly if no full page of the table has a cleared row in
  it and something due behind it (`History.EndsEarly` in the contract of `History.Browser.LoadHistory`); such a row ends
  the sync early, and unnoticed: `History.AClearedRowEndsTheSync`, `History.AClearedConversation`. A page that was cut
  does the same; `History.ShortPageEnds` says when the last page was enough.
- A range with a number of 2^63 or more after the dash is ignored, where section 14.1.2 of RFC 9110 clips it:
  `RangeServing.ParsesPrintedRange`.
- Deduplication inside a batch lets the first request of an id decide. It agrees with one-at-a-time insertion exactly
  unless a refused first request hides an acceptable later one: `MessageTable.DedupRefinesInsertion`.
- A comment says that a failed acknowledgement makes the client retry (server/ws.go:561-563); the client drops the envelope on any
  acknowledgement (web/js/transport.js:301-304). A refusal before the queue means the message is never stored
  (`Delivery.NeverAcceptedNeverStored`), one after it decides nothing (`DeliveryRuns.TimedOutReachable`). An id of more than
  64 bytes is replaced by the server and its envelope is never answered: `Delivery.LongIdsStayPending`.
- The reaction replay looks for the message under its sender, so it finds exactly the messages of direct chats and one's
  own: `Reactions.ReplayLooksRight`, `Reactions.UnfindableStays`.
- The cached name of a group goes stale exactly when a rename is followed by a refused description:
  `Groups.GroupServer.UpdateGroup`.
- The limiter's bound holds when checking and recording are one step. They are two, and with `c` calls between them a
  window holds up to `c - 1` more, which is reached from an empty gate: `Limiter.TwoStepBound`,
  `Limiter.TwoStepBoundIsTight`.
- A ticket is called single-use (server/twofa.go:27). It is when its attempts do not overlap, whatever else interleaves
  (`TwoFactor.SerialTicketBuysOneToken`); otherwise every token still needs a paid look at a code, so there are at most
  five (`TwoFactor.TokensArePaidFor`), and after the first only attempts under way can buy another
  (`TwoFactor.AfterTheDrop`). All five are reached from the start: `TwoFactorRuns.TokensReachable`.
- The write that enables the second factor is unconditional, and the one after a check looks at the last window but not
  at the secret. At every point of a run accepted windows increase, and the row covers them, exactly if no write was
  harmful (`TwoFactor.WindowsFitExactlyIf`); then no two tokens share a window or a code
  (`TwoFactor.EveryTokenHasItsOwnSpend`). A write that finds the row as it was read does no harm
  (`TwoFactor.OrderlyRunIsHarmless`). Of one that does not, `TwoFactor.ConsumingAReplacedSecret`,
  `TwoFactor.EnablingAReplacedSecret` and `TwoFactor.EnablingIncreasesExactlyIf` say when it keeps the order and what it
  leaves behind. Both kinds of failure are reached from the start: `TwoFactorRuns.LowerWindowReachable`,
  `TwoFactorRuns.ReopenedWindowReachable`.

## Model

| member | source | states |
|---|---|---|
| Common.XorBitsInvolutive | server/filecrypt.go:67 | exclusive or with the same bits twice is the identity, on numbers of any width |
| Common.XorFlips | server/filecrypt.go:67 | a zero byte changes nothing and a byte of ones flips every bit |
| Text.DecimalParses | server/filecrypt.go:263 | parsing printed decimal notation gives the number back, and fails from 2^63 on |
| Text.SignedParses | server/filecrypt.go:263 | a sign is understood, and the range is that of 64 bits |
| Text.TrimSpaceIs | server/enckeyguard.go:83 | trimming takes the white space off both ends, all of it and nothing else |
| FileCrypt.ValueInjective | server/filecrypt.go:94-103 | big-endian notation of a fixed length determines its bytes |
| FileCrypt.IncrementAddsOne | server/filecrypt.go:72-75 | byte-wise increment with carry is addition of one modulo 256^n, as in section 6.5 of NIST SP 800-38A |
| FileCrypt.CounterValue | server/filecrypt.go:72-75 | n increments of the 16-byte block add n modulo 2^128 |
| FileCrypt.CounterAdds | server/filecrypt.go:72-75 | counting n and then k more is counting n + k |
| FileCrypt.DigitsSpellValue | server/filecrypt.go:101-102 | base-256 digits spell the number they were taken from |
| FileCrypt.PutUint64 | server/filecrypt.go:101-102 | eight bytes of the buffer spell the word, the others stay |
| FileCrypt.CarryIsAddition | server/filecrypt.go:95-100 | two wrapped 64-bit words with a carry between them add modulo 2^128 |
| FileCrypt.AddToCounter | server/filecrypt.go:94-103 | the in-place addition leaves the block that n single increments leave, for every n below 2^64 |
| FileCrypt.KeystreamSeek | server/filecrypt.go:72-83 | advancing the counter by n blocks drops the first 16 n bytes of the key stream |
| FileCrypt.CtrStream.XORKeyStream | server/filecrypt.go:85-88 | the data is combined with the key stream from where it stands, and the position moves by its length |
| FileCrypt.NewCTRAt | server/filecrypt.go:76-90 | the new stream stands where one started at the IV would stand after offset bytes, within a block included |
| FileCrypt.XorStreamTwice | server/filecrypt.go:67 | decryption with the same stream undoes encryption |
| FileCrypt.XorStreamSlice | server/filecrypt.go:220-231 | a slice of a decryption is the decryption of the slice from its own position |
| FileCrypt.FileRoundTrip | server/filecrypt.go:21-24 | what was encrypted into a file decrypts to it |
| FileCrypt.FileIsCtr | server/filecrypt.go:21-24 | an encrypted file is the magic, the IV, and each plaintext byte combined with its byte of the encrypted counter block, the blocks being the IV and the numbers after it modulo 2^128, as in section 6.5 of NIST SP 800-38A |
| FileCrypt.DecryptsAlike | server/filecrypt.go:67 | two keys decrypt a file alike exactly if their key streams coincide over its payload, whatever it holds |
| FileCrypt.EncryptStream | server/filecrypt.go:52-70 | chunk by chunk the destination receives the encrypted file of the whole source; a full one holds a prefix of it and an error is returned, exactly if it lacks room |
| RangeServing.ParseSingleRange | server/filecrypt.go:246-288 | every accepted range lies in [0, size) and is not empty |
| RangeServing.ParsesPrintedRange | server/filecrypt.go:246-288 | the parser agrees with section 14.1.2 of RFC 9110 on every printed range exactly if its numbers fit in 63 bits, and ignores it otherwise |
| RangeServing.RequestedRange | server/filecrypt.go:197-207 | a range taken into account lies inside the plaintext |
| RangeServing.ServeUploadedFile | server/filecrypt.go:140-232 | a file without the magic or a full header goes out as it is; of an encrypted upload a request without a usable range gets all, with status 200, and one with a range those bytes, with status 206; a request for the head gets the same status, range and length and no bytes |
| RangeServing.IgnoredHeaders | server/filecrypt.go:246-260 | no header, another unit, several ranges, no dash or an empty upload: the range is ignored |
| RangeServing.AnswersUpload | server/filecrypt.go:197-231 | the same of the response that the model's specification gives, on the plaintext that was uploaded |
| RangeServing.DecryptSlice | server/filecrypt.go:220-231 | seeking and decrypting only the slice gives the slice of the decryption of everything |
| RangeServing.ServesSliceOfUpload | server/filecrypt.go:197-231 | a request for any satisfiable range of an upload returns exactly those bytes of what was uploaded |
| RangeServing.PartitionRebuildsUpload | server/filecrypt.go:197-231 | fetching any partition of an upload piece by piece gives the upload back |
| Rotation.Job.RewriteKeepsRows | server/rotatekey.go:303-329 | a row sealed anew keeps its text and will not be touched again |
| Rotation.Job.StepKeepsInv | server/rotatekey.go:30-48 | every durable effect of a run keeps the crash invariant: not journaled, the original is untouched; journaled with a copy, the copy is complete; journaled without one, the original is the copy |
| Rotation.Job.HistoryKeepsInv | server/rotatekey.go:30-48 | the invariant holds at every point of any number of runs cut short anywhere |
| Rotation.Job.NothingIsEverLost | server/rotatekey.go:30-48 | at every such point each file's plaintext and each row's text can be read by a reader with both keys, and legacy files are byte for byte as they were |
| Rotation.Job.TextIsWhatWasSealed | server/rotatekey.go:303-312 | a reader with both keys gets the text sealed under either |
| Rotation.Job.RecoveredIsWhatWasUploaded | server/rotatekey.go:30-48 | and of a file that no run has touched what was uploaded |
| Rotation.Job.FingerprintMeansRotated | server/rotatekey.go:197-231 | once the new fingerprint is recorded every file, and every row and secret that no listing can miss, reads under the new key to its original, and everything foreign is unchanged |
| Rotation.Job.AfterRotation | server/rotatekey.go:197-231 | end to end: once the new fingerprint is recorded, a file uploaded under the old key decrypts to its plaintext and a row sealed under it, if no listing can miss it, opens to its text under the new one |
| Rotation.Job.CutListingsStay | server/rotatekey.go:288-355 | if every run left out the same rows of a table, be it the end of a list or all of it, those are the original ones, and a recorded fingerprint means a rotated table exactly if none of them needed it |
| Rotation.Job.OneUnreadSecret | server/rotatekey.go:341-346 | one needy secret and a users table that cannot be read give a finished rotation that left it under the old key |
| Rotation.Job.ACutListing | server/rotatekey.go:349-355 | two needy rows of either table and a listing that ends after the first give a finished rotation in which the first is moved and the second readable under the old key only |
| Rotation.Job.WildKeepsRows | server/rotatekey.go:303-329 | in every history, failed reads included, every row keeps its text |
| Rotation.Job.CopyLost | server/rotatekey.go:419-421 | a failed journal query that removes the copy of a journaled file leaves a file that passes for done and keeps its plaintext exactly if both keys decrypt it alike |
| Rotation.Job.LostForGood | server/rotatekey.go:405-418 | after that no later run changes the file, and it never reads as rotated unless the keys agree on it |
| Rotation.Job.ALostFile | server/rotatekey.go:463-468 | such a run from the first one on: a crash between entry and rename, one failed query, and a fingerprint over a lost file |
| Rotation.Job.RekeyedTwice | server/rotatekey.go:419-460 | a failed journal query that re-keys a moved file leaves a world in which the data is kept exactly if the keys agree on the file as it stood |
| Rotation.Job.EntryWithoutCopy | server/rotatekey.go:446-453 | the entry is written and the copy removed: the file passes for done, and the data is kept exactly if the keys agree on the original |
| Rotation.Job.FingerprintTooEarly | server/rotatekey.go:408-417 | a fingerprint written over an overlooked copy loses no data and is true exactly if every file is done |
| Rotation.Job.WrongOldKey | server/rotatekey.go:157-174 | a file under a third key that is re-keyed as if under the old one keeps its plaintext exactly if those two keys agree on it |
| Rotation.Job.HistoryMends | server/rotatekey.go:30-48 | steps that follow true reads neither lose a file that can be put right nor put right one that is lost |
| Rotation.Job.DoneFilesAreRotated | server/rotatekey.go:214-231 | when every file passes for done, all are rotated exactly if all could be put right |
| RotateKey.SelectsNextRows | server/rotatekey.go:277-301 | keyset paging by the last seq starts at the first unvisited row and skips none |
| RotateKey.TallyIsComplete | server/rotatekey.go:303-329 | every listed row is counted once: as moved if the old key alone opens it, as done if the new one does, as foreign otherwise; nothing is counted as moved exactly if none of them was left to move |
| RotateKey.Host.Perform | server/rotatekey.go:326 | an effect happens, or fails without effect, or the process dies before or after it |
| RotateKey.Host.Crash | server/rotatekey.go:544-548 | a crash may leave any bytes in a temporary file that was not flushed, and the invariant survives it |
| RotateKey.Host.RotateRow | server/rotatekey.go:303-329 | one row is moved with its text, or left alone if it is new or foreign, and counted as what it was |
| RotateKey.Host.RotateMessages | server/rotatekey.go:275-335 | however its pages are cut, the rows passed are the first ones in seq order, each once; it stops short of the end exactly if a page was cut to nothing; each write is one count, a dry run and a run with nothing left to move write nothing, and it terminates |
| RotateKey.Host.RotateTOTPSecrets | server/rotatekey.go:339-385 | exactly the listed secrets are passed and counted, whatever the list left out; each write is one count, and nothing is written in a dry run or if nothing was left to move |
| RotateKey.Host.CopyRekeyed | server/rotatekey.go:537-543 | the copy loop turns the old ciphertext into the new one chunk by chunk |
| RotateKey.Host.RotateOneFile | server/rotatekey.go:489-551 | on success the temporary file is flushed and holds the whole payload under the new key; the original and the journal are not written |
| RotateKey.Host.ReplaceFile | server/rotatekey.go:439-459 | copy, entry, rename: a file reported as moved is done, a failure before the entry takes the copy away, and without failures the outcome is the whole replacement or none |
| RotateKey.Host.RotateEntry | server/rotatekey.go:398-460 | with a journal query and a look at the copy that may fail: unless one of them misled it, an entry not counted as failed is done; without failing writes its outcome is determined by what the two reads answered |
| RotateKey.EntryIsSafeExactlyIf | server/rotatekey.go:405-421 | an undisturbed entry keeps the data and is done or reported exactly if its reads were not harmful: journaled, and either the copy overlooked, or the query failed in a dry run with a copy or a real run without one; files on which the keys agree aside |
| RotateKey.MisreadIsSafeExactlyIf | server/rotatekey.go:419-460 | under interruption taking a journaled file for open is safe exactly in a dry run without a copy |
| RotateKey.Host.RotateFiles | server/rotatekey.go:389-461 | every entry is counted; no failure and no misread means every file is done; without failing writes there is no failure exactly if no file is stuck |
| RotateKey.Host.RunRotateEncKey | server/rotatekey.go:128-238 | a run ends finished, incomplete, refused or interrupted as the keys, flags and files decide; finished means that the files are done unless it misread an entry, and that a table needs the old key exactly if a row that was not listed did before; a second run leaves moved tables alone |
| RotateKey.Host.RunUntilFinished | server/rotatekey.go:30-48 | any number of runs that may fail, die or misread anywhere lose no row; a finished one has rotated a table if its list held every row that needed it, and only if some run listed each of those; misled by no read they keep the crash invariant, and a finished one leaves under the new key all that a listing cannot miss |
| RotateKey.FinishUndisturbed | server/rotatekey.go:197-231 | after any past, misled ones included, one undisturbed run finishes exactly if no file was truncated from the beginning; then it listed every row that could not be missed, a table is rotated exactly if no row that it did not list needed it, and the files exactly if each could still be put right, which holds after every past that was not misled |
| RotateKey.Host.WhatThePastShows | server/rotatekey.go:30-48 | the state of a host, whatever happened to it, is a state the step system can reach, so its theorems apply |
| RotateKey.MetaStore.EncKeyGuardStatus | server/enckeyguard.go:59-97 | a first start, a known key and a table that cannot be read all start, the first recording its key if it can; another key starts exactly if it is acknowledged and can be recorded, and nothing else is ever written |
| RotateKey.FirstStarts | server/enckeyguard.go:59-97 | the first start of an installation records its key, the same key starts again, and another one starts and takes its place exactly if acknowledged |
| RotateKey.GuardAdmitsTheNewKeyOnly | server/enckeyguard.go:59-97 | after a completed rotation the guard admits the new key and, without an acknowledgement, no other |
| MessageTable.UpsertKeeps | server/msgwriter.go:264-308 | unique ids, ascending numbers and earlier rows survive an upsert; a known id keeps its row, and a new one gets the next number and its time |
| MessageTable.UpsertAllStores | server/msgwriter.go:269-309 | after a multi-row insert every id of it is stored |
| MessageTable.FindStays | server/msgwriter.go:265-268 | a stored id keeps its row, number included, whatever is appended |
| MessageTable.UpsertAllContents | server/msgwriter.go:269-309 | a multi-row insert of acceptable rows stores what inserting them one at a time stores |
| MessageTable.FirstsIds | server/msgwriter.go:169-180 | the deduplicated batch has distinct ids and the same ones |
| MessageTable.DedupRefinesInsertion | server/msgwriter.go:169-180 | inserting the first request of each id equals inserting every request in queue order exactly if no refused first request hides an acceptable new one |
| MsgWriter.WaitersAreTheRequesters | server/msgwriter.go:173-180 | the waiters of an id are the channels of exactly its requests, each once |
| MsgWriter.Reply.TrySend | server/msgwriter.go:157-160 | a channel that holds a verdict keeps it |
| MsgWriter.DeliverSaveResult | server/msgwriter.go:229-234 | everyone who waits for the id hears the verdict, nobody else does, and no send finds a full channel |
| MsgWriter.Deduplicate | server/msgwriter.go:173-180 | the loop keeps the first request of each id and makes everyone wait |
| MsgWriter.Distribute | server/msgwriter.go:193-195 | each id gets its own result or the common failure, and without a panic all of them do |
| MsgWriter.RowByRow | server/msgwriter.go:198-213 | the retry stores the acceptable rows one at a time in order and tells each waiter the truth |
| MsgWriter.EveryRowReturned | server/msgwriter.go:265-268 | RETURNING has the true number of every id of the statement, resent ids included |
| MsgWriter.FlushMessageBatch | server/msgwriter.go:168-227 | whatever fails, the table only grows and every verdict is true of it; a healthy database holds what the first requests store; an infrastructure failure of the one statement is told to everybody at once and not retried, a bad row has every request tried once on its own |
| MsgWriter.SafeFlush | server/msgwriter.go:151-165 | every waiter ends with a verdict even if the flush panics part way, and none already given is overtaken |
| MsgWriter.TakeBatch | server/msgwriter.go:116-135 | a batch is the front of the queue, never empty, never above 200, and short only if the queue is empty |
| MsgWriter.RunMessageWriter | server/msgwriter.go:114-138 | a drained queue leaves everybody answered truthfully, and in a steady run over a healthy database, where nothing panics or fails, a table equal to one-at-a-time insertion in queue order if in every batch the first request of an id decides rightly |
| MsgWriter.ResendsDecide | server/msgwriter.go:114-138 | which it does, however the queue is cut into batches, if an id always comes with data of the same quality |
| Outbox.PutHas | web/js/transport.js:69-74 | queueing makes exactly one id pending and forgets none |
| Outbox.ForgetHas | web/js/transport.js:86-90 | an acknowledgement removes exactly its id |
| Outbox.Client.QueueMessage | web/js/transport.js:69-76 | the envelope replaces one of its id or is appended before it is sent; full storage is passed over in silence |
| Outbox.Client.AckPending | web/js/transport.js:86-90 | the stored list loses exactly the acknowledged id |
| Outbox.Client.FlushPendingMessages | web/js/transport.js:93-99 | everything pending goes to an open socket in the order it was queued |
| Outbox.Client.OnOpen | web/js/transport.js:445-461 | a fresh socket is given the pending list twice |
| Delivery.NextKeeps | server/ws.go:112-241 | every step of client, network, handler and writer, and a restart of the server, keeps the invariant of the whole system |
| Delivery.RestartKeeps | web/js/transport.js:445-461 | a restart that loses queue, batches and connections keeps the invariant, the account of unanswered requests included |
| Delivery.TakeAckKeeps | web/js/transport.js:301-304 | whatever acknowledgement takes an envelope off the outbox, its id stays accounted for |
| DeliveryProgress.SaveIsAcknowledged | server/ws.go:470-483 | a save that went through is acknowledged exactly once, on the sender's connection alone, under the id of the request, with the number of its row, as delivered or sent; the handler is free again |
| DeliveryProgress.GivingUpIsToldToAll | server/ws.go:443-449 | a full queue, a timeout and a failed save are told once to every connection of the author and to no other |
| DeliveryProgress.StatusIsToldToAll | server/ws.go:599-608 | a delivery or a reading is told once to every connection of the author and to no other |
| DeliveryProgress.FrameIsRefusedOrTaken | server/ws.go:112-150 | a frame is refused with one acknowledgement, at once if it is too long, or becomes the handler's as it came but for a replaced id |
| DeliveryProgress.BatchIsStored | server/msgwriter.go:264-308 | storing a batch leaves every id of it in the table and changes no earlier row |
| DeliveryProgress.ConnectSendsTheOutbox | web/js/transport.js:445-461 | a new socket is given the whole outbox in its order, twice |
| DeliveryProgress.DisconnectLosesFrames | web/js/transport.js:50-56 | a lost socket takes the end of what was sent and all that was to come; the outbox stays |
| DeliveryProgress.RestartKeepsTheLasting | server/msgwriter.go:81 | a restart loses what was under way; table, outboxes and verdicts stay |
| DeliveryProgress.QueueIsFirstComeFirstServed | server/msgwriter.go:114-138 | over every interleaving requests are taken in the order in which they were accepted |
| DeliveryProgress.OutboxCanBeDelivered | web/js/transport.js:50-56 | no state is a dead end: from every one the system can go on until each envelope of a device with an id of its own is off its outbox and stored, or refused for its length and nothing else, and nothing else came into the table |
| DeliveryProgress.DeliveredReachable | web/js/transport.js:50-99 | from a fresh server on, an envelope written offline is sent, stored as it is, acknowledged without a refusal and off the outbox |
| Delivery.BatchUnanswered | server/msgwriter.go:229-234 | a request in a batch has an empty reply channel, so answering it cannot block |
| Delivery.StoredOnce | server/msgwriter.go:265-268 | over every interleaving an id is stored at most once and its row never changes |
| Delivery.AckMeansStored | server/ws.go:432-483 | every acknowledgement in flight that is not a refusal is about a stored id, and its seq is that row's |
| Delivery.NothingQueuedIsLost | web/js/transport.js:50-56 | an envelope recorded in the outbox is at every later moment pending, or stored, or refused to its author's face |
| Delivery.LongIdsStayPending | server/ws.go:125-130 | an id above 64 bytes is never acknowledged: its envelope stays pending for good |
| Delivery.StoredAsQueued | server/ws.go:541-551 | what is stored under an id is the envelope its author queued under it, if ids are unique |
| Delivery.NeverAcceptedNeverStored | server/ws.go:131-138 | a message that was refused before the queue is not stored |
| DeliveryRuns.TimedOutReachable | server/ws.go:570-580 | from a fresh server on there is a run in which an accepted message is refused on a timeout and stored all the same |
| Delivery.Conservation | server/msgwriter.go:81 | every accepted request is in exactly one place: the queue, one writer's batch, answered, or lost with a restart |
| Delivery.VerdictsStay | server/msgwriter.go:149-160 | a verdict once given is final |
| Delivery.SendersOrderIsKept | server/msgwriter.go:26-29 | if a connection saw a save return before it queued the next, not yet stored message, the next gets the larger seq whichever writers took them |
| Paging.NarrowerKeeps | server/history.go:167-175 | a row on the limited page of a condition is on the limited page of any narrower condition it meets |
| Paging.SamePage | server/history.go:185-203 | a narrower condition that admits the wide condition's page has the same page |
| Paging.PageComesFirst | server/history.go:196-203 | what a limited page leaves out stands behind all of it |
| Paging.CutPage | server/history.go:55-60 | what was read of a page before the iteration ended is the page of a smaller limit |
| Paging.SelectIsFront | server/history.go:196-203 | a limited page is the front of the same query without a limit |
| Paging.ShortPageIsAll | web/js/history.js:171 | a page below its limit leaves nothing out |
| History.ThreeBranchesAreThePlainQuery | server/history.go:185-203 | three limited branches merged by seq and limited again are the first rows of the plain condition, for every table, cursor and limit, with self-messages and without groups |
| History.PutOnce | web/js/history.js:123-143 | merging by id overwrites or appends and never makes a twin |
| History.PlacesAgree | server/chatprefs.go:291-303 | server and client call a conversation the same: the group, else the recipient of one's own message, else the sender; a boundary hides exactly the rows of its own conversation |
| History.SyncedInPlace | web/js/history.js:120 | that everything between the cursors is merged means that every row sent to a group lies in that group's conversation, one's own in the recipient's and any other in the sender's, unless it was cleared there |
| History.Browser.MergePage | web/js/history.js:118-146 | the loop over a page merges it row by row and advances the cursor to its largest seq |
| History.PageExtends | web/js/history.js:86-172 | a merged page, cut or filtered, extends what is synced without a gap and moves the cursor |
| History.ShortPageEnds | web/js/history.js:171 | behind a short page nothing is due if the query had fewer rows and all were read, and without cleared conversations only then |
| History.PageIsBlock | web/js/history.js:94-171 | behind n full pages the next request returns the next thousand of the rows visible from the start, however the cursor got there |
| History.WholePageEnds | web/js/history.js:171 | a sync that ends on an uncut page has left something due behind exactly if some full page of the table has a cleared row in it and something due behind it |
| History.AClearedRowEndsTheSync | server/history.go:236-248 | a full page with a cleared row in it is sent short, so that the client stops although something is due above its cursor |
| History.AClearedConversation | server/history.go:236-248 | one cleared message and a page of others are such a table |
| History.SyncedSurvivesGrowth | web/js/history.js:86-172 | rows added meanwhile come above the cursor and open no gap |
| History.Browser.LoadHistory | web/js/history.js:86-175 | the loop terminates; whatever was cut or cleared, between the cursors nothing is missing, doubled, foreign or in another conversation than its group's, its recipient's or its sender's; it ends incomplete exactly on the seventh refusal, a server error or the page ceiling, for which the server must have refused, failed, or hold two million visible rows; otherwise, on a server that cuts no page, nothing due is above the cursor exactly if no full page has a cleared row in it and something due behind it, so always without cleared conversations; on any server the last page, which was a possible answer, decides |
| Reactions.ToggleKeeps | server/ws.go:202-206 | a toggle flips its key, moves it to the end under a fresh rseq, and changes no other |
| Reactions.LogIsParity | server/ws.go:202-206 | the log that keeps one event per key knows of every toggle: a reaction stands exactly after an odd number |
| Reactions.MarkSets | web/js/history.js:195-199 | set and unset do what they say to one emoji of one user and nothing else |
| Reactions.ReplayLooksRight | web/js/history.js:192-194 | the replay looks in the message's own conversation exactly for direct chats and one's own messages |
| Reactions.UnfindableStays | web/js/history.js:192-194 | for other people's group messages a replay changes nothing |
| Reactions.AgreementSurvivesToggles | server/history.go:33-38 | toggles made between two requests break no agreement up to the cursor |
| Reactions.PageAgrees | web/js/history.js:190-201 | replaying the next page, cut or not, carries the agreement up to its last rseq |
| Reactions.PageMoves | web/js/history.js:190-202 | a page moves the cursor by at least its length, so only twenty full pages can meet the ceiling |
| Reactions.ReactionSync.ReplayPage | web/js/history.js:190-201 | the loop over a page is the replay of its events in order and advances the cursor |
| Reactions.ReactionSync.SyncReactions | web/js/history.js:180-205 | however the loop ends and its pages are cut, the client agrees with the server up to its cursor; on a server that cuts no page it then shows, for every message of a direct chat or of one's own, wherever it is loaded, all the server has, unless the server failed or twenty pages of numbers were drawn; on any server it does if the page it ended on was not cut |
| Reactions.ReplayTwice | web/js/history.js:177-179 | replaying a page again changes nothing at all |
| Groups.RoleIs | server/groups.go:54-60 | the role in the loaded map is the role in the row |
| Groups.ApplyKeeps | server/groups.go:262-319 | every request, whoever makes it, keeps an admin in every group, the key, and at most 200 members |
| Groups.Creates | server/groups.go:207-252 | a new group is made exactly if its trimmed name is allowed and free, and has its creator for admin, the existing users among the people for members, and nobody else |
| Groups.ChangesMembers | server/groups.go:262-319 | after a change somebody is a member exactly if he was or is an existing user to be added, and is not to be removed unless he is the author; roles stay, newcomers have none, other groups are untouched; and when this is refused |
| Groups.ChangesRole | server/groups.go:421-454 | one role changes and nothing else; the last admin cannot give up his own |
| Groups.Leaves | server/groups.go:456-495 | who leaves is gone; the others stay as they were and in order, but the first becomes admin if none is left; the group ends with its last member |
| Groups.Deletes | server/groups.go:395-419 | a deleted group is gone, and no other |
| Groups.Updates | server/groups.go:325-386 | only name and description of the group can differ: the trimmed name if it is allowed and free, then also if the description is refused, and the trimmed description if both are allowed |
| Groups.OthersAreRefused | server/groups.go:262-319 | nobody but an admin of the group gets anything done to it |
| Groups.EveryGroupHasAnAdmin | server/groups.go:475-492 | over whole runs every group has an admin and at most 200 members |
| Groups.AdminsAreMadeByAdmins | server/groups.go:421-454 | nobody becomes an admin of an existing group but by an admin's word or as the oldest of those left without one |
| Groups.StaleAdminOrphansAGroup | server/groups.go:85-88 | an admin check answered from a stale entry can leave a group without an admin |
| Groups.GroupServer.LoadGroup | server/groups.go:37-66 | the entry returned and cached holds exactly the rows' roles, and there is one exactly if the group exists |
| Groups.GroupServer.NotifyGroup | server/groups.go:111-126 | after a change the group's entry is fresh again, and exactly the members of the changed group are told |
| Groups.GroupServer.IsGroupAdmin | server/groups.go:85-88 | the cached check answers what the table says |
| Groups.GroupServer.CreateGroup | server/groups.go:207-252 | the cached handler does what the cache-free reference does, and the cache agrees with the tables again |
| Groups.GroupServer.ChangeGroupMembers | server/groups.go:262-319 | likewise for adding and removing members |
| Groups.GroupServer.ChangeGroupRole | server/groups.go:421-454 | likewise for roles |
| Groups.GroupServer.LeaveGroup | server/groups.go:456-495 | likewise for leaving, promotion and the end of an empty group included |
| Groups.GroupServer.DeleteGroup | server/groups.go:395-419 | likewise for deletion |
| Groups.GroupServer.UpdateGroup | server/groups.go:325-386 | likewise for renaming; a correct name cache stays correct exactly unless the rename takes effect and the description is refused |
| Limiter.AfterAfter | server/limiter.go:80-85 | forgetting what an earlier cutoff forgets does not change what a later one keeps |
| Limiter.AfterCounts | server/limiter.go:80-85 | what is kept behind a cutoff is exactly what was recorded after it, as often as it was |
| Limiter.Append | server/limiter.go:93 | append writes in place while there is room and otherwise into an array of its own |
| Limiter.Compact | server/limiter.go:104-109 | the in-place filter over times[:0] leaves exactly the survivors in order |
| Limiter.RateLimiter.IsBlocked | server/limiter.go:75-88 | the answer counts everything ever recorded in the window, whatever has been discarded |
| Limiter.RateLimiter.RecordFailure | server/limiter.go:90-94 | a record is added to its key's history and to no other's |
| Limiter.RateLimiter.Cleanup | server/limiter.go:99-116 | keys whose records have aged out disappear, exactly those, and no later answer changes |
| Limiter.RateLimiter.Admit | server/limiter.go:75-94 | checked and recorded in one step, no window of any position holds more than the limit |
| Limiter.TwoStepBound | server/limiter.go:75-94 | checked and recorded in two steps by at most c callers at once, no window holds more than c - 1 above the limit |
| Limiter.TwoStepBoundIsTight | server/limiter.go:75-94 | that many are reached from an empty gate, for every limit, window and number of callers |
| Totp.PaddedSpells | server/totp.go:108 | a padded code has six digits and spells its number |
| Totp.StepIsWindow | server/totp.go:115-137 | past the epoch a window is the thirty seconds behind its number |
| Totp.CounterSpells | server/totp.go:85-88 | the buffer spells the window number modulo 2^64 in eight bytes |
| Totp.TruncatedIs | server/totp.go:98-103 | the truncated hash is the big-endian word at the offset its last byte names, without the highest bit |
| Totp.ExampleOfTheRfc | server/totp.go:98-109 | the example of section 5.4 of RFC 4226 comes out as 872921 |
| Totp.CodesSpellTheHash | server/totp.go:97-108 | a code spells the truncated hash modulo a million, so two windows share one exactly if their hashes agree in that |
| Totp.CodeAt | server/totp.go:81-109 | the buffer, truncation and modulus loop compute the code of the window, negative windows included |
| Totp.Verify | server/totp.go:115-137 | a window is returned exactly if one of the three has the cleaned code, and it is the earliest; it began less than a minute ago or begins within thirty seconds |
| Totp.NeighboursMatch | server/totp.go:115-137 | the codes of the current window and of both its neighbours are accepted as they are printed |
| Totp.SpacesVanish | server/totp.go:115-120 | spaces typed into a code do not matter, and nothing else is taken out |
| Tickets.TicketStore.IssueTicket | server/twofa.go:101-118 | the sweep over the map removes exactly the expired tickets, the new one has spent no attempt, and what was ever granted stays within its bounds |
| Tickets.TicketStore.ClaimAttempt | server/twofa.go:123-137 | an attempt is granted exactly to a ticket that is there, unexpired and has been granted fewer than five ever; then it is counted, otherwise the ticket is gone; other tickets stay |
| Tickets.TicketStore.SignIn | server/twofa.go:402-446 | uninterrupted, the second step gives a token exactly for a granted attempt and an accepted code, and no ticket ever buys two |
| Tickets.ClaimKeepsTickets | server/twofa.go:123-137 | a claim keeps the account of attempts: counted on the ticket, never more than five, never after expiry |
| TwoFactor.TicketsAreFinite | server/twofa.go:101-143 | over every interleaving a ticket pays for at most five looks at a code and for no attempt after it expired |
| TwoFactor.LooksAreNear | server/twofa.go:175-183 | a code is looked at within the minute before and the half minute after its window begins, against the secret in force |
| TwoFactor.NothingFromTheFuture | server/twofa.go:175-197 | over every interleaving no accepted window begins more than thirty seconds after the clock |
| TwoFactor.TokenExactlyIf | server/twofa.go:418-446 | a step gives a token of a ticket exactly if it accepts a newer window or an unused recovery code under it and the account is not blocked, and then the ticket is gone |
| TwoFactor.UsedCodeIsNoCode | server/twofa.go:184-196 | a window that is not newer than the last changes nothing and is tried as a recovery code |
| TwoFactor.OthersTicketsAdmitNobody | server/twofa.go:123-137 | a ticket of somebody else, unknown or expired admits nobody to this account |
| TwoFactor.ResetLeavesNothing | server/twofa.go:264-272 | after a reset there is no secret, no code is looked at, and with the next statement there is no recovery code |
| TwoFactor.TokensArePaidFor | server/twofa.go:418-446 | over every interleaving a ticket buys at most as many tokens as it paid looks for, hence five |
| TwoFactor.SerialTicketBuysOneToken | server/twofa.go:27-33 | a ticket buys at most one token in every run in which it is not claimed while an attempt on it is unfinished |
| TwoFactor.DroppedTicketAdmitsNobody | server/twofa.go:139-143 | once a ticket is dropped no further attempt on it is ever admitted |
| TwoFactor.AfterTheDrop | server/twofa.go:139-143 | after a ticket is dropped, attempts that were under way buy at most one token each and no others do |
| TwoFactorRuns.TokensReachable | server/twofa.go:418-446 | from the first day on there is, for every number up to five, a run in which one ticket buys that many tokens |
| TwoFactorRuns.CodesReachable | server/twofa.go:213-235 | from the first day on: setting up and enabling ends with the factor on and ten unused recovery codes |
| TwoFactorRuns.RecoveryReachable | server/twofa.go:239-253 | each of the ten codes signs its owner in, and is used then |
| TwoFactorRuns.TurnedOffReachable | server/twofa.go:368-400 | the factor can be turned off again, leaving neither secret nor codes |
| TwoFactor.CodesAreSingleUse | server/twofa.go:239-253 | over every interleaving a recovery code is accepted at most once |
| TwoFactor.WindowsFitExactlyIf | server/twofa.go:175-197 | over every run: the windows increase and the row covers them at every point exactly if each accepting write found no accepted window of its secret at or above its own, and enabling left none above of the secret in force |
| TwoFactor.EveryTokenHasItsOwnSpend | server/twofa.go:175-197 | in every run without a harmful write accepted windows of a secret strictly increase, as section 5.2 of RFC 6238 asks, and no two tokens share a window or a recovery code |
| TwoFactor.OrderlyRunIsHarmless | server/twofa.go:175-197 | a run whose writes find the secret they read, and whose enabling writes find the factor off or an older window, has no harmful write, and its row always holds the last window accepted |
| TwoFactor.UninterruptedIsOrderly | server/twofa.go:402-456 | a handler not interrupted between reading and writing meets that condition |
| TwoFactor.ConsumingAReplacedSecret | server/twofa.go:175-197 | a check keeps the order exactly if no accepted window of its secret reaches its own, which is so while that secret is in force; otherwise a token is bought with a code of a secret not in force, and the row refuses windows of its own secret up to that of the old |
| TwoFactor.EnablingIncreasesExactlyIf | server/twofa.go:328-366 | while its secret is in force, the enabling write keeps the order exactly if the factor is still off or the window is newer |
| TwoFactor.EnablingAReplacedSecret | server/twofa.go:328-366 | otherwise it turns the factor on for a secret of which nobody has shown a code if it was off, admits no code at all if there is no secret, and keeps the order exactly if no accepted window of its own secret reaches its window |
| TwoFactorRuns.LowerWindowReachable | server/twofa.go:328-366 | from the first day on there is a run whose accepted windows go down |
| TwoFactorRuns.ReopenedWindowReachable | server/twofa.go:264-272 | from the first day on there is a run in which a reset between a check and its write lets one window buy two tokens |
| UnfurlCache.PreviewCache.MemPut | server/unfurlcache.go:152-178 | the memory layer never exceeds 500; at the ceiling the older half goes and no survivor is older than what went |
| UnfurlCache.PreviewCache.Lookup | server/unfurlcache.go:122-150 | a hit is the last stored result, its address aside, and less than six hours old, or fifteen minutes if it was a failure; such a result is found unless it was trimmed, never reached the table, or is not in memory while the table does not answer |
| UnfurlCache.PreviewCache.Store | server/unfurlcache.go:181-196 | the memory holds the new result, and so does the table unless it refused it, when it is as before |
| UnfurlCache.PreviewCache.Clean | server/unfurlcache.go:235-254 | a row leaves the table only if it is older than six hours, or fifteen minutes for a failure, or, at the ceiling of 20000, not newer than any that stays; no such row stays unless the statement failed |
| UnfurlCache.Flights.BeginFetch | server/unfurlcache.go:211-220 | it is one's turn exactly if nobody fetches the key; otherwise one gets the open channel of who does |
| UnfurlCache.Flights.EndFetch | server/unfurlcache.go:222-229 | the channel is closed, once, and the key is free again |

## Left out

- Rotation: failed reads of the journal and of copies are in `WildHistory` and in `Host`, and excluded from `History` only; an `Exec` that was applied but reported as failed is not a step of `Host` (`Rotation.Job.EntryWithoutCopy` shows what it does to a file); an earlier rotation to the same key is excluded (`Fresh`), as `rotationDone` trusts any earlier entry; an original whose name ends in `.rotating` is not modelled.
- Rotation: a rename or an insert that returned is durable; the directory itself is not flushed in the code and its loss on power failure is not modelled.
- Rotation: rows and files do not change between runs except by rotation.
- RotateKey.Host.Perform: a failed effect had no effect, except writes to a temporary file, which may have written a part.
- RangeServing: the branch for a negative plaintext size cannot be reached after a full header and is absent; content types, caching headers and errors of opening and seeking are not modelled.
- MsgWriter.RunMessageWriter: one writer over a closed queue; several writers and arrivals are interleaved in `Delivery`, whose writer steps allow everything a flush may do, in any order.
- Delivery: one user name per connection, frames of type message only, no retention deletes; reads, presence, calls and the live copies to recipients are not modelled; a lost connection keeps any prefix of its upstream frames and loses all downstream ones; a restart of the server loses both, its queue and its batches.
- Delivery.LongIdsStayPending: an empty id would be replaced as well (server/ws.go:221-223); the web client names every envelope before it queues it (web/js/upload.js:313, web/js/menu.js:223, web/js/voice.js:132, web/js/calls.js:467).
- Delivery.StoredAsQueued: ids are unique per envelope and never equal to one the server makes up.
- Delivery: that a pending envelope is stored in the end is stated as possible from every state (`DeliveryProgress.OutboxCanBeDelivered`), not as inevitable, which depends on the network coming back.
- History.Browser.LoadHistory: clearing, edits and deletions during a sync, and a tab closed before the messages are saved are excluded; rows become visible in seq order; a row that the history or reactions endpoint cannot scan, which it leaves out, does not occur; malformed JSON is not modelled.
- History: the per-conversation and upward pages, and attaching reactions to a page, are not modelled.
- Reactions.ReactionSync.SyncReactions: the client starts in agreement with the server up to its cursor, and no user name begins with "g:".
- Groups: one handler at a time, so a cache fill racing an invalidation is excluded; statements succeed; members who joined at the same instant are taken in insertion order; administrators' removal of members and accounts, which promotes nobody, is not modelled.
- Limiter: a non-decreasing clock; the resolution of client addresses is not modelled.
- TwoFactor: one account, since rows and statements of accounts do not meet; statements succeed; random secrets, recovery codes and ticket ids do not repeat.
- TwoFactor: HMAC-SHA-1, base32 and the enrolment URI are not modelled; a code is represented by the window it belongs to.
- UnfurlCache: one process and one clock for both layers; lookups and stores of one key do not overlap, which the coalescing of fetches is for; fetching and parsing pages is not modelled.
- HTTP plumbing, JSON, metrics, push, LDAP, OIDC, backups, search, administration pages and the browser's user interface would add easy members or need systems that cannot be modelled faithfully.
- bcrypt, AES, GCM, SHA-256 and HMAC themselves: uninterpreted.
