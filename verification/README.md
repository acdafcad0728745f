# Verified model of the AIM data gateway

The gateway lets a data owner sell files without handing them over first: buyers download under signed
permissions, a market receives signed receipts and scan reports, and a verifier reads the data and publishes
only facts that are to reveal no small count. This project models the parts of the gateway whose correctness is
hardest to see from the code and proves what they promise, for all inputs and all runs.

| part of the system | modules | main result |
|---|---|---|
| buyer transfer ledger and door | `Segments`, `Coverage`, `Counting`, `Transfer`, `TransferSafety`, `TransferCompletion`, `TransferRuns`, `TransferIntervals`, `TransferLedger`, `TransferLocks`, `TransferBarrier`, `DoorRange`, `Decimal` | no byte of an order goes out more than twice, whatever crashes (`TransferRuns.NeverMoreThanTwice`), with the locks as they are (`TransferBarrier.RunsAreRuns`); receipts are true, cumulative and complete once |
| AWS verifier ledger | `AwsModel`, `AwsLedger` | under every interleaving one record at most is unsettled, admissions are unique, committed reports are read back exactly |
| audit log and its outboxes | `AuditChain`, `AuditReader`, `AuditState`, `AuditLog`, `Gateway`, `Runner` | a restart keeps every synced entry; receipts and reports reach the log exactly once and in order |
| ZIP planning and full hashing | `ZipPlan`, `ZipOrder`, `ZipHash`, `ZipFile` | whatever the order of the central directory, exactly the physical file is hashed, a commitment is made whenever memory suffices, and all memory is returned |
| suppression arithmetic | `Rates`, `Histogram`, `Naming`, `Cells`, `Occupancy`, `Census`, `Disclosure`, `CensusBuild` | a published null rate by itself singles out no small count and a partition shows no small cell; which small counts a column's histogram, the reasons beside the read state, nested populations and the duplicate rates tell is stated exactly (`Histogram.ColumnTells`, `Disclosure`); the coverage check agrees with the producer |
| streaming and encodings | `PinnedReads`, `Unicode`, `Shingles`, `Inspection`, `Binding`, `CanonicalJson` | only pinned bytes are delivered; inspection does not depend on how a file is cut; encodings are injective |
| Cloudflare verifier ledger | `ChunkTable`, `CloudflareModel`, `CloudflareLedger` | rows, custody and reports agree after every run of transactions |

Each stateful part comes twice: as a state machine of steps, over whose runs the promises are proved, and as
a class whose methods do what the code does, loops and all, and are proved to take only such steps. A class
carries its run in a ghost field, so what is proved of runs holds of the object. `dafny verify dfyconfig.toml`
checks everything.

Where the code does not meet a property, the property is stated with its exact condition and a lemma shows the
case that fails:

- An audit entry longer than 2 MiB is appended without complaint and the log then cannot be opened again
  (`AuditState.LongLineLocksOut`); it opens exactly when its lines fit (`AuditState.OpensAgain`).
- A ZIP entry that overlaps two others marks only its nearer neighbour (`ZipPlan.FarOverlapUnmarked`). Every
  overlap marks both its sides exactly when each one beyond the next neighbour meets an entry that does not fit
  for another reason (`ZipPlan.OverlapsMarkedExactly`); all extents are valid exactly when the entries fit
  (`ZipPlan.AllValidExactly`).
- A column's histogram is published beside the exact number of rows, so it tells the nulls that the suppressed
  rate hides: five among twenty-five rows (`Histogram.FiveNullsTold`). It tells one to nine nulls exactly when
  there are ten rows, no bucket of one to nine, and that many nulls; never one to nine values; and the rate by
  itself tells neither (`Histogram.ColumnTells`).
- `unread_by_reason` publishes cells of ten and more beside the number of members and the read state. So it can
  tell three members read of thirty, which the read state hides (`Disclosure.ReasonsTellThreeRead`), or three
  partly read ones of forty-three, which the read state takes together with the fully read
  (`Disclosure.ReasonsTellThreePartly`). Which such counts of one to nine are told is exact, in terms of the counts
  themselves (`Disclosure.CoverageTells`, `Disclosure.PartlyReadTold`, `CensusBuild.Counter.Tells`); when a
  partition is shown is `Occupancy.ShownExactly` and `Occupancy.StatesShownExactly`.
- Numbers of nested populations are published beside one another: that of the opened archives beside the archives
  and the members, that of the files beside the members, and that of the text files beside the files. Three
  unopened archives, five binary files and three uninspected members are told (`Disclosure.UnopenedAreTold`,
  `Disclosure.BinaryFilesAreTold`, `Disclosure.UninspectedAreTold`); exactly when is `Disclosure.ArchivesTell` and
  `Disclosure.FilesTell`.
- The rates of exact and of near duplicates are published as they are, without the rule that null rates are held
  to: they tell one pair among ten files (`Disclosure.OnePairIsTold`) and five contents among a hundred
  (`Disclosure.FiveContentsAreTold`). They tell a small count, one to nine or that many short of all, exactly when
  ten files or more were found (and as many eligible ones, for the near rate), not one to nine archives were
  opened, and the count has the rate of a small one; below a million files just when it is small
  (`Disclosure.DuplicateRatesTellSmall`).
- After a read reported a changed artifact, the next read may report the end of the file with bytes missing
  (`PinnedReads.EndAfterChange`). The end is told of the whole object exactly when no answer, other than a
  failed request, was refused while bytes were still to come (`PinnedReads.HashBlocks.Read`).
- The fragmentation cap leaves the interval at byte 0 out of the count, so a file can have 1025 intervals: every
  file of more than 2048 bytes, and no other (`TransferIntervals.TooManyReached`), exactly when 1024 begin behind
  byte 0 and byte 0 is transmitted (`TransferIntervals.OneTooMany`).
- Settling a Cloudflare admission other than the open one leaves the open one without its name
  (`CloudflareModel.OtherSettlingBreaks`); settling the open one, or any when none is open, keeps the tables in
  agreement (`CloudflareModel.StepKeeps`). No present caller does: the worker settles only the active admission
  (deploy/cloudflare-verifier/worker.ts:191-204).
- A Cloudflare admission of more than 17033 objects is accepted but cannot be read back
  (`CloudflareLedger.Ledger.Record`). No present caller sends one: snapshots have 17033 members at most
  (internal/cloudflareverification/source.go:25).

Digests and signatures are injective constructors; databases are maps changed by atomic steps; clocks, random
failures, network answers and the moves of concurrent invocations are parameters that may take any value.

## Model

| member | source | states |
|---|---|---|
| `Segments.Transform` | internal/ledger/ledger.go:368-403 | adding a delta to a byte range gives the one canonical list (sorted, disjoint, positive, maximal) whose counts are the old counts plus the delta, never below zero |
| `Segments.Extend` | internal/ledger/ledger.go:396-400 | a piece behind the list extends the last segment exactly when it touches it with the same count, so the list stays maximal |
| `Segments.CanonicalUnique` | internal/ledger/ledger.go:345-403 | two canonical lists with the same count at every byte are the same list, so "canonical with these counts" names one result |
| `Coverage.Covered` | internal/ledger/ledger.go:404-411 | the scan answers whether one segment reaches across the range |
| `Coverage.CoveredMeansHeld` | internal/ledger/ledger.go:404-411 | on a transmitted list one segment reaches across exactly when every byte of the range is held |
| `Coverage.FirstUntransmitted` | internal/ledger/ledger.go:412-423 | the resume offset is the least byte that is not held, or the size |
| `Coverage.BytesAreHeld` | internal/ledger/ledger.go:424-430 | the sum of segment lengths is the number of bytes held |
| `Coverage.AllBytesHeld` | internal/ledger/ledger.go:919-921 | inside a file the byte total equals the size exactly when every byte is held |
| `Coverage.MaxServesReached` | internal/ledger/ledger.go:849-861 | the receipt field is the number of bytes at two serves that were never recorded as transmitted |
| `Coverage.Normalize` | internal/ledger/ledger.go:431-441 | joining touching segments gives the canonical list with the same counts |
| `TransferLedger.AddTransmitted` | internal/ledger/ledger.go:608-622 | the transmitted list after a checkpoint is the canonical list of ones that holds the old bytes and the new |
| `TransferLedger.Clip` | internal/ledger/ledger.go:490-499 | a request is refused exactly when its first byte is at two serves, and else stops right before the first such byte |
| `TransferLedger.Ledger.Decide` | internal/ledger/ledger.go:443-521 | the answer to a reservation: which check refuses, in the order of the source, or how far the response may run and whether it is isolated |
| `TransferLedger.Ledger.Reserve` | internal/ledger/ledger.go:443-541 | one transaction takes the reservation step of the state machine and nothing else, and the object stays on a lawful run |
| `TransferLedger.Ledger.QueueTx` | internal/ledger/ledger.go:894-937 | a receipt with the true intervals, bytes and exhausted bytes is queued; a complete one once only, and refused when bytes are missing |
| `TransferLedger.Ledger.Progress` | internal/ledger/ledger.go:596-630 | a checkpoint records exactly the bytes written since the last one, or, when the transaction fails, nothing |
| `TransferLedger.Ledger.WriteLoop` | internal/ledger/ledger.go:675-701 | never more than one window is out unrecorded; the loop ends with the whole chunk or with the error, deadline or lost checkpoint that explains why |
| `TransferLedger.Ledger.WriteChunk` | internal/ledger/ledger.go:635-714 | writes only when the permission, the order and the range allow it; afterwards everything written is checkpointed or the response is in doubt, and a short write has its reason |
| `TransferLedger.Ledger.SettleTx` | internal/ledger/ledger.go:732-777 | settling gives back the unused end, closes the response and queues its receipt together, or changes nothing |
| `TransferLedger.Ledger.Settle` | internal/ledger/ledger.go:720-731 | ordinary and crash settlement under the order and file lock take the settlement step; a settlement that commits and is not an unfounded "complete" succeeds |
| `TransferLedger.Ledger.Recover` | internal/ledger/ledger.go:778-816 | every open response is settled as crashed and nothing else of a request changes |
| `TransferLedger.Ledger.Reopen` | internal/ledger/ledger.go:110-136 | after a crash serving resumes only once recovery has closed every request |
| `TransferLedger.Ledger.FinishEmpty` | internal/ledger/ledger.go:543-595 | a file without bytes is completed exactly when the grant, file, offer, deadlines and revocations allow it |
| `TransferLedger.Ledger.Prepare` | internal/ledger/ledger.go:939-1010 | the acknowledgement tells the true resume offset, bytes, intervals and serve count, refuses exactly exhausted or complete orders, and when ready the resume offset is below two serves and not isolated |
| `TransferLedger.Ledger.Revoke` | internal/ledger/ledger.go:301-322 | a revocation closes the permission row and is remembered |
| `TransferLedger.Ledger.Stream` | internal/door/door.go:364-432 | every byte sent lies in a block that matched its recorded hash; a mismatch stops exactly at the block that fails; the response ends checkpointed or in doubt |
| `TransferLedger.Ledger.Download` | internal/door/door.go:293-432 | reserve, stream and settle: a refusal changes nothing; an admitted response is closed again whenever its last transaction commits, as a crash exactly when a checkpoint was lost |
| `TransferLedger.Ledger.Promises` | internal/ledger/ledger.go:443-776 | what holds of the object after any calls: no byte sent more often than its serve count, at most two; records were sent; few intervals; complete receipts are single |
| `TransferSafety.StepKeepsServes` | internal/ledger/ledger.go:526-532 | every step keeps: the serve count of a byte is the number of responses charged for it, at most two, and the stored list is canonical |
| `TransferSafety.StepKeepsSent` | internal/ledger/ledger.go:680-706 | every step keeps: a byte went out once for each response that got past it |
| `TransferSafety.StepKeepsRows` | internal/ledger/ledger.go:635-776 | every step keeps each response within its charge, within one window of its checkpoint, and one writer per order and file |
| `TransferSafety.StepKeepsRecord` | internal/ledger/ledger.go:608-622 | every step keeps the record true: only checkpointed bytes are transmitted |
| `TransferCompletion.StepKeepsFew` | internal/ledger/ledger.go:500-510 | every step keeps the intervals besides the one at byte 0, plus the isolated responses without a checkpoint, within 1024 |
| `TransferCompletion.StepKeepsDone` | internal/ledger/ledger.go:757-776 | every step keeps: completed orders are covered, closed and without a writer, and a covered order with no open response is completed |
| `TransferCompletion.StepKeepsReceipts` | internal/ledger/ledger.go:835-893 | every step keeps every queued receipt true of the bytes it lists |
| `TransferRuns.RunHolds` | internal/ledger/ledger.go:443-776 | the whole invariant holds after every run of reservations, writes, checkpoints, settlements, revocations, failures, crashes and recoveries |
| `TransferRuns.NeverMoreThanTwice` | internal/ledger/ledger.go:743-751 | over every run, the times a byte was put on the network never exceed its serve count, nor that two, whatever crashes |
| `TransferRuns.ReleaseIsExact` | internal/ledger/ledger.go:394-395 | releasing takes exactly one serve from each byte of the unused end, so dropping counts at or below zero never hides a negative one |
| `TransferRuns.OneWindowAtRisk` | internal/ledger/ledger.go:743-747 | what a response wrote lies within one window of its checkpoint, and once closed so does what it is charged for |
| `TransferRuns.RecordedWasSent` | internal/ledger/ledger.go:608-622 | a byte recorded as transmitted was put on the network |
| `TransferRuns.IntervalsStayFew` | internal/ledger/ledger.go:500-510 | at most 1024 transmitted intervals besides the one at byte 0, so at most 1025 rows |
| `TransferIntervals.OneTooMany` | internal/ledger/ledger.go:500-510 | over every run, there are 1025 intervals exactly when 1024 begin behind byte 0 and byte 0 is transmitted |
| `TransferIntervals.AttachedIsAdmitted` | internal/ledger/ledger.go:500-521 | over every run, a request from byte 0 on or from right behind a transmitted byte is never refused as fragmenting, whatever the number of intervals: it is admitted exactly when permission, deadlines and offer allow it and its first byte was served less than twice |
| `TransferIntervals.ResumeIsAdmitted` | internal/ledger/ledger.go:443-521 | over every run, while bytes are missing and none is exhausted, there is a resume offset, and a request from there on is admitted exactly when permission, deadlines and offer allow it and it asks for a byte |
| `TransferIntervals.ServeTooMany` | internal/ledger/ledger.go:500-510 | a run that serves every second byte and then byte 0: 1025 intervals |
| `TransferIntervals.TooManyReached` | internal/ledger/ledger.go:500-510 | some run gives a file 1025 intervals exactly when it has more than 2048 bytes |
| `TransferRuns.CompleteAtMostOnce` | internal/ledger/ledger.go:901-936 | one complete receipt for a completed order and file and none for any other, and a completed one has every byte transmitted |
| `TransferRuns.CoveredAndClosedIsCompleted` | internal/ledger/ledger.go:766-776 | full coverage with no open response implies completion |
| `TransferRuns.SilentAfterCoverage` | internal/ledger/ledger.go:664-671 | once a file is covered and no writer is inside a chunk, nothing of it is ever sent again |
| `TransferRuns.SilentAfterCompletion` | internal/ledger/ledger.go:664-671 | a completed order and file stays completed, without usable permissions, and silent |
| `TransferRuns.ReceiptsCumulative` | internal/ledger/ledger.go:835-893 | a receipt tells exactly the bytes it lists, a later one lists every byte of an earlier one, and a complete one lists the file |
| `TransferLocks.LocksStayOk` | internal/ledger/ledger.go:42-66 | over every run of arrivals, locks and departures each entry counts its callers and is held by at most one of them |
| `TransferLocks.OneHolder` | internal/ledger/ledger.go:42-66 | two callers never hold the lock of one order and file together, and no entry outlives its callers |
| `TransferLocks.LockTable.Take` | internal/ledger/ledger.go:43-54 | a caller joins the entry of its key, which is made if there is none |
| `TransferLocks.LockTable.TryLock` | internal/ledger/ledger.go:55-56 | the lock is had exactly when nobody holds it |
| `TransferLocks.LockTable.Leave` | internal/ledger/ledger.go:56-66 | the entry stays exactly while another caller holds or waits for it |
| `TransferBarrier.NobodyInside` | internal/ledger/ledger.go:635-641 | whoever holds the lock of an order and file, and is not writing itself, finds no response of it inside `WriteChunk` |
| `TransferBarrier.RunsAreRuns` | internal/ledger/ledger.go:543-830 | behind the locks, with any callers and any interleaving, the ledger makes only runs of the state machine: what guards its steps is what the lock gives |
| `TransferBarrier.LockedOut` | internal/ledger/ledger.go:635-641 | behind the locks two responses of one order and file are never inside `WriteChunk` together, and a caller that has the lock finds none there |
| `DoorRange.ParseRange` | internal/door/door.go:154-189 | an accepted range lies inside the file: what reservations rely on |
| `DoorRange.AskedRange` | internal/door/door.go:172-188 | "bytes=S-E" gives the bytes of the file among S..E for all numbers, or is refused when there are none or a number passes 63 bits |
| `DoorRange.AskedRest` | internal/door/door.go:172-188 | "bytes=S-" gives everything from S on |
| `DoorRange.AskedSuffix` | internal/door/door.go:165-171 | "bytes=-N" gives the last N bytes, or the whole file |
| `AwsModel.StepKeepsInv` | internal/awsverification/ledger.go:140-313 | every atomic write keeps: the active name is the one unsettled record, custody is whole, admissions are unique, daily counters are exact |
| `AwsModel.StepEvolves` | internal/awsverification/ledger.go:140-313 | every atomic write only moves forward: clock, versions, settled records, replay keys and chunks |
| `AwsModel.OneActiveRecord` | internal/awsverification/ledger.go:140-208 | under every interleaving at most one record is unsettled, and it is the one the clock names |
| `AwsModel.NothingIsUndone` | internal/awsverification/ledger.go:42-74 | the high-water mark never falls, equal versions mean equal clocks, and a settled record never changes again |
| `AwsModel.AdmissionsAreUnique` | internal/awsverification/ledger.go:168-205 | no specification, nonce or authorization is admitted twice, and no listing more than ten times a day |
| `AwsLedger.FreshOnce` | internal/awsverification/ledger.go:140-208 | over one run a specification, nonce or authorization is freshly admitted by one step only |
| `AwsLedger.ReadHolds` | internal/awsverification/ledger.go:101-138 | what a record read at one time still says at any later time, whatever others did in between |
| `AwsLedger.Unmoved` | internal/awsverification/ledger.go:54-61 | an unmoved version means an unmoved clock: the optimistic read is as good as an atomic one |
| `AwsLedger.Ledger.Observe` | internal/awsverification/ledger.go:42-74 | success raises the mark to the time given; undisturbed, it succeeds exactly when the mark is not too far ahead |
| `AwsLedger.Ledger.AdmitOnce` | internal/awsverification/ledger.go:140-205 | one attempt: known exactly for the same token and hash, fresh only when this very attempt took the step, and undisturbed exactly when the job is admissible |
| `AwsLedger.Ledger.Admit` | internal/awsverification/ledger.go:140-208 | at most five attempts; fresh means this very call admitted the job, a repeated request is recognised, and undisturbed a job is admitted exactly when it may be |
| `AwsLedger.Ledger.PutChunk` | internal/awsverification/ledger.go:220-228 | success exactly when the chunk is there with these bytes, put by whomever |
| `AwsLedger.Ledger.Commit` | internal/awsverification/ledger.go:212-247 | the descriptor becomes visible only when all chunks exist; undisturbed, a commit succeeds exactly within the size and time limits for a running record |
| `AwsLedger.Ledger.Body` | internal/awsverification/ledger.go:249-267 | whoever reads a committed report, and whenever, gets the committed bytes; from any other record nothing |
| `AwsLedger.Ledger.Settle` | internal/awsverification/ledger.go:268-313 | success settles the record and frees the clock together; undisturbed, exactly for the active record |
| `AuditChain.ChainExtends` | internal/audit/audit.go:208-256 | the entry an append makes keeps the hash chain |
| `AuditChain.RotationHolds` | internal/audit/audit.go:280-288 | the last rotation starting at or before an entry is the file that holds it |
| `AuditReader.NextLineOf` | internal/audit/audit.go:91-98 | what a bounded reader finds next: a whole line, a cut-off one at the end, or one too long |
| `AuditReader.ReadFile` | internal/audit/audit.go:82-122 | a file is accepted exactly when it reads as a continuation of the chain, and then as the only one |
| `AuditReader.ImageUnique` | internal/audit/audit.go:82-139 | the files tell their entries, where each file begins and the unfinished tail: there is one way to read them |
| `AuditState.ReadFiles` | internal/audit/audit.go:82-139 | all files are accepted exactly when they hold one chain of lines that fit the buffer, with an unfinished line in the last at most |
| `AuditState.WalkFile` | internal/audit/audit.go:332-366 | walking a file visits its entries in order, exactly when each fits the buffer |
| `AuditState.TornIsGood` | internal/audit/audit.go:230-242 | whatever prefix of a line a broken append leaves, the files still hold every entry appended before |
| `AuditState.RestartKeeps` | internal/audit/audit.go:82-139 | what any later process reads: every entry an append returned, and at most one that it did not |
| `AuditState.OpensAgain` | internal/audit/audit.go:92-95 | a log opens again exactly when its lines fit the reader buffer of 2 MiB |
| `AuditState.LongLineLocksOut` | internal/audit/audit.go:92-95 | an entry of a longer line, which appending accepts, and the log no longer opens |
| `AuditLog.Log.Open` | internal/audit/audit.go:69-156 | opening succeeds exactly on readable files, keeps every synced entry, and puts an unfinished line aside before cutting it off |
| `AuditLog.Log.Append` | internal/audit/audit.go:185-257 | an accepted entry is the next of the chain; a failed one leaves the entries as they were and, once bytes may be on disk, stops the log |
| `AuditLog.Log.Read` | internal/audit/audit.go:271-314 | reading by number through rotation index and cursor gives exactly that entry of the log |
| `AuditLog.Log.Walk` | internal/audit/audit.go:332-366 | walking visits the entries of the log in order, so it agrees with reading one by one |
| `AuditLog.Log.Search` | internal/audit/audit.go:280-283 | the binary search finds the last rotation starting at or before the entry |
| `Gateway.Gateway.Open` | internal/gateway/gateway.go:46-97 | a new process re-marks every receipt it finds in the log; if all marks succeed none is left unmarked |
| `Gateway.Gateway.Poll` | internal/gateway/gateway.go:140-172 | receipts in the log are always the first of the outbox, each once and in order, across failed appends, lost marks and crashes; when nothing fails all are moved |
| `Gateway.Gateway.Reconcile` | internal/ledger/ledger.go:187-195 | sent are exactly the marked receipts among the acknowledged entries |
| `Gateway.Gateway.Deliver` | internal/gateway/gateway.go:173-185 | acknowledged entry by entry, the receipts sent are those that reconciling at the last of them would give |
| `Gateway.OnceEach` | internal/gateway/gateway.go:140-172 | no receipt is in the log twice, and they stand in the order of their numbers |
| `Gateway.Within` | internal/ledger/ledger.go:191-195 | a receipt lies within the acknowledged entries exactly when its number does |
| `Runner.Runner.FlushOne` | internal/verification/runner.go:544-562 | a report is found in the log or appended, then linked; only recovery may find a conflict |
| `Runner.Runner.Match` | internal/verification/runner.go:545-549 | with distinct instruction ids the report found under an instruction is that very report |
| `Runner.Runner.Flush` | internal/verification/runner.go:512-564 | success links every waiting report; a failure marks the runner unhealthy; unhindered, it succeeds |
| `Runner.Runner.Recover` | internal/verification/runner.go:565-617 | after a restart every report already in the log is linked and not appended again; recovery succeeds when the log reads and nothing hinders it |
| `Runner.Appended` | internal/verification/runner.go:550-556 | appending the report of a job that had none keeps every report owned by one job, once |
| `Runner.LinkSettles` | internal/verification/runner.go:557-561 | linking a job to its entry settles that report |
| `Runner.ExactlyOnce` | internal/verification/runner.go:513-564 | with distinct instruction ids a linked report is in the log exactly once |
| `ZipPlan.PlanZip` | verification/zip.go:34-74 | the selected entries are the longest beginning within the caps with the cap that ended it, every bound is the next offset, and an entry is valid unless it or its neighbour before it does not fit |
| `ZipPlan.ValidDisjoint` | verification/zip.go:59-72 | the bytes two valid entries claim are disjoint and end before the central directory |
| `ZipPlan.OverlapsMarkedExactly` | verification/zip.go:64-71 | every overlap marks both its sides exactly when each overlap beyond the next neighbour meets an entry that does not fit for another reason |
| `ZipPlan.AllValidExactly` | verification/zip.go:59-72 | all extents are valid exactly when every entry is in range, ends before the directory, and runs into no entry behind it |
| `ZipPlan.FarOverlapUnmarked` | verification/zip.go:64-71 | an entry that overlaps two others marks only the nearer: the farther stays valid |
| `ZipPlan.ValidTile` | verification/zip.go:59-72 | when all extents are valid they lie one after another up to the central directory |
| `ZipPlan.ValidCover` | verification/zip.go:59-72 | in the order of the central directory they are those tiles, each once |
| `ZipHash.FullHash.Reserve` | verification/zip.go:458-476 | memory is charged only within the limit and the shared headroom, whatever others charge in between; when nobody else charges, exactly when there is room |
| `ZipHash.FullHash.Place` | verification/zip.go:447-450 | an extent belongs after every held one that begins before it |
| `ZipHash.FullHash.Splice` | verification/zip.go:451-453 | the linked list holds the new node in that place and every other as before |
| `ZipHash.FullHash.Start` | verification/zip.go:436-454 | an extent is hashed directly when its turn has come, else memory and a place in the list are set aside |
| `ZipHash.FullHash.Drain` | verification/zip.go:482-495 | blocks whose turn has come are hashed in order and their memory is given back, and none that is due stays |
| `ZipHash.FullHash.Write` | verification/zip.go:478-503 | what has been hashed is always a prefix of the file; held bytes are those of their extents; memory charged is the sum over held blocks |
| `ZipHash.FullHash.Release` | verification/zip.go:504-510 | everything charged is given back |
| `ZipHash.HashAll` | verification/zip.go:196-324 | for any order of the extents, success means exactly the physical file was hashed; it succeeds in physical order, and when nobody else charges and there is room for every extent; all memory is returned either way |
| `ZipOrder.Drains` | verification/zip.go:482-495 | hashing the first held block when its turn has come keeps the hash a prefix of the file |
| `ZipOrder.GoesOnHeld` | verification/zip.go:496-500 | bytes kept for later are those of their extent, and always fit the block |
| `ZipOrder.AllDone` | verification/zip.go:320-324 | once every extent has come, everything up to the central directory is hashed and nothing is held |
| `ZipFile.Attempt` | verification/zip.go:166-195 | a full commitment is tried exactly when every entry is selected, fits and was readable and what lies between the entries is within the allowance |
| `ZipFile.FullCommitment` | verification/zip.go:166-325 | a full commitment is made only of exactly the physical file; and it is made whenever it is tried and the directory is in physical order, or nobody else charges and the memory covers every extent |
| `Rates.RoundedIsNearest` | verification/scanner.go:569-580 | the rate is the nearest integer, halves to the even one |
| `Rates.NearestIsUnique` | verification/scanner.go:569-580 | there is only one such integer |
| `Rates.RateMonotone` | verification/scanner.go:569-580 | more nulls never give a smaller rate |
| `Rates.First` | verification/scanner.go:583-594 | the binary search finds the first count that reaches the target |
| `Rates.Preimage` | verification/scanner.go:595-600 | the two searches find exactly the counts with the same rate |
| `Rates.AmbiguousRate` | verification/scanner.go:581-602 | a rate is refused exactly when some count of one to nine, or of that many short of all, has it |
| `Rates.NullRate` | verification/scanner.go:611-615 | a published rate is only consistent with none, all, or ten to all but ten |
| `Rates.RateTellsCount` | verification/scanner.go:569-580 | below a million rows equal rates mean equal counts |
| `Rates.TellsSmallExactly` | verification/scanner.go:581-602 | a rate is that of a small count exactly when it lies between those of one and nine or of nine and one short of all; below a million exactly when its own count is small |
| `Histogram.Aggregate.Add` | verification/scanner.go:522-540 | every value falls into the bucket where it belongs, and counts and nulls always sum to the values |
| `Histogram.Aggregate.Publish` | verification/scanner.go:628-641 | a histogram is published exactly with ten rows and no bucket of one to nine |
| `Histogram.Aggregate.Finish` | verification/scanner.go:607-641 | a column is published with its rows, its null rate unless suppressed, and its histogram unless suppressed, as the values stand for |
| `Histogram.BucketsSum` | verification/scanner.go:522-540 | every value has its bucket and only one: buckets and nulls sum to the rows |
| `Histogram.ColumnTells` | verification/scanner.go:607-641 | the null rate tells no small count; the histogram beside the rows tells one to nine nulls exactly when there are ten rows, no bucket of one to nine and that many nulls, and never one to nine values |
| `Histogram.FiveNullsTold` | verification/scanner.go:607-641 | twenty-five rows with buckets of ten and ten: the rate is suppressed, the five nulls are told |
| `Cells.FindSmallest` | verification/occupancy.go:176-184 | the smallest cell, by count then name, whatever order the map is walked in |
| `Cells.SortedKeys` | verification/occupancy.go:193-200 | the names in the one sorted order |
| `Occupancy.MergedKeeps` | verification/occupancy.go:143-188 | merging neither loses nor adds a member, and two cells left have ten members each |
| `Occupancy.AbsorbKeeps` | verification/occupancy.go:175-187 | taking the smallest cells into the rest keeps the sum and ends with ten members or no cell |
| `Occupancy.StatesKeep` | verification/occupancy.go:154-166 | combining read states keeps the sum and leaves no small cell |
| `Occupancy.Published` | verification/occupancy.go:143-202 | a checked partition shows at least two cells of ten or more that sum to the counts; any other shows none |
| `Occupancy.ShownExactly` | verification/occupancy.go:143-202 | a partition by class is shown exactly when, with ten members, two cells of ten are left once the small ones, and with them the smallest other while they are fewer than ten, are taken together as `other` |
| `Occupancy.StatesShownExactly` | verification/occupancy.go:154-166 | a read state is shown exactly with ten members and, if some state has one to nine, ten read and ten unread ones, else two states that occur |
| `Occupancy.RestTold` | verification/occupancy.go:141-202 | a partition by class tells a rest of one to nine exactly when its counts let it be shown and leave such a rest |
| `Occupancy.BuildPartition` | verification/occupancy.go:143-202 | the loops compute that partition, whatever order the map is walked in |
| `Census.NonInterference` | verification/occupancy.go:282-360 | with one to nine archives opened, counts that differ only inside files and archives, within one file-count band, give the same census |
| `Census.PartitionsAreSafe` | verification/occupancy.go:273-336 | every partition of a published census, by itself, shows two cells or more of ten or more, or none; by extension, size, read state, class, encoding and script they make up the population shown with them; by reason they fall short of it by one to nine exactly when the counts let them be shown and that many are left |
| `Census.BandContains` | verification/binding.go:149-166 | the band or number published for a count contains it |
| `Census.ValidateCells` | verification/binding.go:114-135 | cells are accepted exactly when they are distinct known states of ten or more that sum to the members and fit the plan |
| `Census.ValidateCensusCoverage` | verification/binding.go:91-136 | a census is accepted exactly when bands, depth and cells agree with the sizes |
| `Census.AcceptedExactly` | verification/binding.go:91-136 | a census built from counts that add up is accepted exactly when the plan is within the members, names them all if all were read, and, where the read state can be shown, names as many as were read |
| `Census.PlannedIsAccepted` | verification/binding.go:91-136 | it is accepted whenever every member read was planned |
| `Disclosure.CoverageTells` | verification/occupancy.go:278-281 | of the differences between members, reasons and read states: those without a reason, the read ones with one, and those not fully read without one are told, when one to nine, exactly under conditions on the counts |
| `Disclosure.PartlyReadTold` | verification/occupancy.go:154-166 | where just the members not fully read have a reason, one to nine partly read ones are told exactly when the reasons are shown and ten are unread and ten read |
| `Disclosure.ReasonsTellThreeRead` | verification/occupancy.go:278-281 | thirty members, three read, seventeen and ten unread for two reasons: the read state is suppressed and the reasons tell the three |
| `Disclosure.ReasonsTellThreePartly` | verification/occupancy.go:154-166 | forty-three members, three of them partly read: the read state shows twenty-three and twenty, the reasons beside it tell the three |
| `Disclosure.ArchivesTell` | verification/occupancy.go:280-285 | numbers held back beside their whole tell no small difference; the population of the interiors tells one to nine unopened archives, or members that are no opened archive, exactly when ten were opened and, for the archives, their own number is shown |
| `Disclosure.FilesTell` | verification/occupancy.go:293-326 | one to nine members more than files, and files more than text files, are told exactly when the smaller number is ten and not one to nine archives were opened |
| `Disclosure.UnopenedAreTold` | verification/occupancy.go:280-285 | twelve of fifteen archives opened: the part is a band, the population is not |
| `Disclosure.BinaryFilesAreTold` | verification/occupancy.go:320-326 | five binary files of a hundred: the encodings are suppressed, the populations tell the five |
| `Disclosure.UninspectedAreTold` | verification/occupancy.go:280-296 | twenty-seven of thirty members inspected: the read state is suppressed, the populations tell the three |
| `Disclosure.DuplicateRatesTellSmall` | verification/occupancy.go:312-319 | the exact and the near rate of a published census are that of a small count, by the rule of null rates, exactly under the conditions of their publication and when the number has such a rate; below a million files exactly when it is small |
| `Disclosure.OnePairIsTold` | verification/occupancy.go:312-319 | two equal files among ten show the rate 100000, which only one duplicate has |
| `Disclosure.FiveContentsAreTold` | verification/occupancy.go:312-319 | five contents in twenty copies each show the rate 950000, which only ninety-five of a hundred have |
| `Disclosure.DuplicateRateTellsCount` | verification/occupancy.go:312-319 | below a million files two published censuses show the same exact rate exactly when they have the same number of repeated files |
| `CensusBuild.CountRepeated` | verification/occupancy.go:261-267 | the members beyond the first of each group |
| `CensusBuild.Finish` | verification/occupancy.go:273-336 | the loops build exactly the census the counts stand for |
| `CensusBuild.SuppressInspected` | verification/occupancy.go:337-360 | everything inspected but the band of the number of files is taken back |
| `CensusBuild.Merge` | verification/detectors.go:443-465 | merging two inspections adds every total and every count by name |
| `CensusBuild.AddFile` | verification/detectors.go:403-442 | a file adds one to the files, its class, encoding and script, and its hits, licences and digests, unless memory for them is refused; so classes and encodings each sum to the files |
| `CensusBuild.Counter.constructor` | verification/occupancy.go:219-231 | the inventory counts exactly the members: by kind, by size, archives and bytes |
| `CensusBuild.Counter.Add` | verification/occupancy.go:232-260 | the counts are always those of exactly the results added: states, reasons, sums, archives and findings |
| `CensusBuild.Counter.Adds` | verification/occupancy.go:232-281 | once every member has a result the states sum to the members, and the census is accepted by every plan that admits what was read |
| `CensusBuild.Counter.Tells` | verification/occupancy.go:232-281 | once every member has a result, the counts make up their populations; one to nine results without a reason are told exactly when the counts let the reasons be shown; and where every unread result has a reason and no fully read one, so are the partly read with and without a reason, beside a read state that is shown |
| `PinnedReads.ReadAt` | verification/scanner.go:265-291 | from an arbitrary, changing store only the pinned bytes at the offsets asked for are delivered; end-of-file only past the end; an honest store is never refused |
| `PinnedReads.HashBlocks.Read` | verification/scanner.go:214-255 | streaming delivers only pinned bytes; which answers are refused is exact; the end is told of the whole object exactly when no answer but a failed request was refused while bytes were still to come |
| `PinnedReads.EndAfterChange` | verification/scanner.go:229-241 | after a refused short answer the next read reports the end with nothing delivered |
| `PinnedReads.NextPinned` | verification/scanner.go:243-247 | a block with the digest pinned for its place is the pinned block |
| `Unicode.FullStays` | verification/detectors.go:272-280 | more bytes never change a rune that is complete |
| `Unicode.RunesSplit` | verification/detectors.go:268-280 | bytes in two pieces give the runes of the whole, with the cut-off end carried over |
| `Unicode.EncodeDecode` | verification/detectors.go:243-248 | a rune written as UTF-8 is the rune read, whatever follows |
| `Unicode.ConvertSplit` | verification/detectors.go:226-251 | UTF-16 in two pieces converts like the whole, with the odd byte and the half pair carried over |
| `Unicode.ConvertReads` | verification/detectors.go:226-251 | the converted text reads as exactly the runes that all the units stand for by the definition of UTF-16, and what waits is a high surrogate in the last unit |
| `Shingles.BatchBump` | verification/detectors.go:111-114 | counting a shingle in the map is one more vote |
| `Shingles.Flush` | verification/detectors.go:117-128 | adding counted shingles to the votes in any order gives the votes of counting them one by one |
| `Inspection.Frame` | verification/detectors.go:104-108 | the ring gives the last five token hashes, oldest first |
| `Inspection.TokenScan.FlushToken` | verification/detectors.go:86-116 | a token that ends joins the last four, and every five in a row vote once |
| `Inspection.TokenScan.TakeRunes` | verification/detectors.go:268-304 | every complete rune is taken in once, in order; a cut-off one waits |
| `Inspection.FileInspection.WriteWide` | verification/detectors.go:226-251 | after each piece the text is that of all whole units so far |
| `Inspection.FileInspection.Write` | verification/detectors.go:197-225 | after each piece the state is that of everything written so far |
| `Inspection.FileInspection.Finish` | verification/detectors.go:305-320 | tokens, scripts and votes are those of the whole file, what waits taken in |
| `Inspection.Inspect` | verification/detectors.go:197-320 | however a file is cut into pieces, inspecting it finds the same |
| `Binding.BigInjective` | verification/binding.go:18-22 | eight-byte numbers tell their value |
| `Binding.FrameSplit` | verification/binding.go:23 | a length-framed field ends where its length says: no two different continuations share bytes |
| `Binding.PartSplit` | verification/binding.go:62-87 | the bytes of one member tell its identity, size, tag and digest and leave the rest |
| `Binding.PreimageInjective` | verification/binding.go:62-90 | for the same kinds of members, equal hashed bytes mean equal identities, sizes, tags and digests |
| `Binding.ContentBindingV2` | verification/binding.go:62-90 | the loop hashes exactly those bytes, and refuses exactly when a member has no commitment its kind may have |
| `Binding.UnreadInjective` | verification/binding.go:24-61 | equal hashed bytes mean the same list of members, up to quotes around etags |
| `Binding.UnreadBinding` | verification/binding.go:44-61 | the loop hashes exactly the members outside the plan, in order |
| `CanonicalJson.ValueRead` | verification/canonical.go:166-210 | what was printed for a value within the depth is parsed as that value, whatever follows it |
| `CanonicalJson.RoundTrip` | verification/canonical.go:70-165 | printing and decoding undo each other exactly on the values within depth 32 |
| `CanonicalJson.PrintInjective` | verification/canonical.go:70-135 | different values within the depth never share their canonical text |
| `CanonicalJson.AcceptedExactly` | verification/canonical.go:211-222 | a text is accepted as a value exactly when it is the canonical text of that value |
| `CanonicalJson.ParsedDepth` | verification/canonical.go:166-169 | whatever is decoded is within the depth |
| `CanonicalJson.CharsRead` | verification/canonical.go:39-69 | every escaped string is read back as itself |
| `Decimal.DigitsRead` | verification/canonical.go:98-112 | a number written in decimal is read back, and only zero begins with a zero |
| `ChunkTable.Write` | deploy/cloudflare-verifier/state.ts:77-85 | a text is written as its chunks and nothing else changes |
| `ChunkTable.Written` | deploy/cloudflare-verifier/state.ts:77-85 | a text written under a new name is held with the others |
| `ChunkTable.Read` | deploy/cloudflare-verifier/state.ts:172-181 | joining the chunks gives back the text that is held |
| `CloudflareModel.OneOpen` | deploy/cloudflare-verifier/state.ts:136-155 | at most one admission is open, and it is the active one |
| `CloudflareModel.ReportsOfCommitted` | deploy/cloudflare-verifier/state.ts:156-197 | report rows and chunks exist exactly for a committed admission |
| `CloudflareModel.CustodyOfOpen` | deploy/cloudflare-verifier/state.ts:77-103 | snapshot chunks exist exactly for the open admission |
| `CloudflareModel.StepKeeps` | deploy/cloudflare-verifier/state.ts:136-205 | every transaction keeps rows, custody and reports in agreement |
| `CloudflareModel.RunKeeps` | deploy/cloudflare-verifier/state.ts:77-205 | so does every run of transactions from an empty ledger |
| `CloudflareModel.StaleGo` | deploy/cloudflare-verifier/state.ts:198-200 | pruning drops exactly the stale settled rows: none is active or has a report |
| `CloudflareModel.PrunedKeepsAll` | deploy/cloudflare-verifier/state.ts:201 | no custody goes with them |
| `CloudflareModel.OtherSettlingBreaks` | deploy/cloudflare-verifier/state.ts:189-197 | settling an admission other than the open one breaks the agreement, whatever is held |
| `CloudflareLedger.Ledger.Wake` | deploy/cloudflare-verifier/state.ts:118-126 | a task is queued exactly when none was in the last minute and none is queued or running in time |
| `CloudflareLedger.Ledger.Claim` | deploy/cloudflare-verifier/state.ts:127-134 | the lease is taken exactly when it is free or overdue |
| `CloudflareLedger.Ledger.Record` | deploy/cloudflare-verifier/state.ts:86-103 | a record is exactly what was admitted until it is settled, then empty; beyond 17033 objects it cannot be read |
| `CloudflareLedger.Ledger.Admit` | deploy/cloudflare-verifier/state.ts:136-155 | a fresh admission exactly when nothing is open, in time, under quota and unused; a repeated one is recognised; else nothing changes |
| `CloudflareLedger.Ledger.Commit` | deploy/cloudflare-verifier/state.ts:156-171 | the report is stored exactly for the open accepted admission, within size, alphabet and time |
| `CloudflareLedger.Ledger.Body` | deploy/cloudflare-verifier/state.ts:172-181 | the report is read exactly as it was committed, and only then |
| `CloudflareLedger.Ledger.Settle` | deploy/cloudflare-verifier/state.ts:182-197 | settling writes the whole new tables: row closed, custody and report dropped, active freed |
| `CloudflareLedger.Ledger.Prune` | deploy/cloudflare-verifier/state.ts:198-205 | only stale settled rows go |
| `CloudflareLedger.Ledger.Agrees` | deploy/cloudflare-verifier/state.ts:77-205 | after any calls the tables agree with what is held |

## Left out

- SHA-256, HMAC, Ed25519 and JWS: a digest is a constructor around its bytes, so different bytes never share one; signing always succeeds and `wire.Sign` is not modelled.
- SQL, SQLite, DynamoDB and durable-object storage: a transaction is one atomic step on maps; busy timeouts, item size limits and TTL deletion are not modelled.
- Transfer: permission ids, timestamps and the listing version in receipts; the write callback is taken to return between 0 and the bytes it was given, as its own check demands, because the early return of that check skips the checkpoint; files keep their size; closing expired permissions after a chunk is taken to succeed.
- TransferLedger.Ledger.Recover: settles each response as a step of its own, where the source uses one transaction; that only adds runs.
- TransferLedger.Ledger.Prepare: what the checks of the file and its offers found comes in as a parameter, since they are a chain of field comparisons.
- TransferLedger.Ledger.Download: the retries of a failed crash settlement, and the HTTP answers; the file is read through a function that says which blocks still match.
- TransferLedger.Ledger.Stream: does not state when a whole range arrives, because another response of the same order may complete the file first.
- TransferLedger.Ledger.WriteChunk: runs alone: while a method of the class runs, no other response moves. Interleavings are those of the state machine, which takes any other step between two steps of a response, and `TransferBarrier` proves of the locks what the methods require of other writers.
- TransferLocks.LockTable.TryLock: waiting for a lock is trying again; fairness and the scheduler are not modelled.
- Door: tokens, offers and ceilings before the reservation, and `safeName`.
- AwsLedger.Ledger.Admit: job fields other than specification, token, hash, nonce, authorization and listing, and the 300 KiB item limit.
- Other invocations of the AWS verifier take only steps of the model; retention of settled evidence and bootstrap are not modelled.
- Audit log: files are numbered one after another from zero, fewer than a million, and their order by name is their order by number; the JSON codec is a parser and printer that undo each other; `wire.ValidateScanReportBody` is a predicate; a crash while an unfinished line is set aside may keep that line twice.
- AuditLog.Log.Append: the kinds of failure are three: no file, bytes in the file that may or may not be whole, and none.
- Gateway: instructions (`Handle`), inventory scans and generations, key pins.
- Runner.Runner.Recover: building terminal reports for interrupted jobs, and pruning; a report is named by its instruction, and exactly-once holds when no two jobs share one.
- `internal/ledger/verification.go`: admissions and counters of the on-premises verifier repeat those of the two cloud ledgers, which are modelled; of this file only the report outbox is.
- ZIP: decoding of entries, their checksums and the per-entry commitment; `FullCommitment` takes which entries were readable as a parameter; a missing memory budget.
- ZipHash.FullHash.Reserve: other readers change the shared counter only between the two looks at it, a given number of times.
- Suppression: HyperLogLog estimates and distinct counts, schema types, and the order in which files were found.
- Census: which cells of different partitions stand for nested counts (a content class within an encoding, say) is not part of this model, so differences between such cells are not examined; nor is what a reader knows from elsewhere, or from a second census.
- Histogram.ColumnTells: the number of rows itself is always published and is not taken for a small count; a column of a type without histograms publishes its null rate only; that two columns may be null in the same rows is not examined.
- CensusBuild.Counter.Add: byte totals and pattern versions of an inspection are not kept; detector classes are named instead of numbered.
- PinnedReads.HashBlocks.Read: the running hash of the whole file and the error of the last close.
- Inspection: email, phone, credential and licence patterns, the 4096-byte prefix, encodings and content classes; Unicode's letter, digit, case and script tables and the first 64 bits of SHA-256 are parameters; the token part of the inspection is an object of its own.
- CanonicalJson.RoundTrip: floating-point numbers and numbers with a fraction or an exponent are not modelled; strings are sequences of Unicode scalar values, so invalid UTF-8 does not arise; sorting of keys is the one sorted list of them.
- Binding.PreimageInjective: for members of the same kinds in the same order; a table and a census member are framed differently, and across kinds nothing is claimed.
- Cloudflare: events, bootstrap, installation, migration from the first schema; times are whole seconds and days are counted from the epoch.
- The read-ahead caches of `internal/cloudflareverification/reader.go` and `internal/awsverification/s3.go`, `PlannedReadSet` and parallel scanning.
- Field-by-field token checks, admission size inequalities, configuration, self-check, canary and release scripts: single readings settle them.
