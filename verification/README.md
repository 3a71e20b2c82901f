# cdb, modelled and proved in Dafny

cdb is a command-line shell for CouchDB. This project models its hardest parts and proves
what they promise:

- **The dump and its crash protocol** (`DumpFormat`, `DumpContent`, `DumpScan`, `DumpFile`,
  `DumpWriter`, `SplitAttachments`, `Backup`, `BackupRun`, `BackupSince`). A dump is a chain of
  gzip members holding newline-terminated JSON records and raw attachment bytes. `backup` can
  stop at any byte; `Scan` finds the end of the last whole member, `Truncate` cuts there, and
  the next run appends. gzip, JSON and the server are parameters with small contracts; `Codecs`
  shows that the contracts can be met.
- **Restore** (`RestoreRule`, `RestoreTarget`, `Restore`, `BackupRestore`). A streaming batcher
  with three running totals, proved to refine a rule that looks at one document at a time; the
  bulk writes and uploads it makes, and what they leave in the database; and all of it joined to
  backup end to end.
- **The pipeline executor** (`Pipeline`, `PipelineSteps`, `PipelineSafety`, `PipelineEmission`,
  `PipelineLiveness`, `PipelineCancellation`, `PipelineConsumers`). Goroutine stages, channels
  of 64, one cancellable context, the first-failure latch and the liveness gate, as an
  interleaved step system; the theorems are about all runs, and what a stage emits is told
  twice, step by step and straight from its reactions.
- **The shell's scanners and expansion** (`ShellText`, `ShellParse`, `ShellScanners`,
  `ShellAgreement`, `ShellExpand`, `ShellWords`, `ShellPipelines`, `ShellQuoting`). Three
  hand-written quote and escape automata, the marks the parser leaves for expansion, and
  expansion itself. A line is a sequence of runes; a word is a sequence of bytes, because marks
  are byte offsets.
- **The virtual path grammar** (`Path`, `PathResolve`): the walk that delays a collapse of
  `_partition`, its composition law with the exact exceptions, the classifier on top, and the
  percent-encoding of names that come back from it.
- **Paging, the followed feed and the batching consumers** (`Paging`, `Tail`, `PipeConsume`).

Imperative code is modelled imperatively: the writer, the reader, the batcher, the feed
producer and the pipe are classes, and the loops of the source are loops. Each is proved
against a specification function, and the lemmas are about that function. Timing - what a
`select` picks, when `TryNext` finds something, when a disk or a server fails - is left open:
a step of many, or a parameter that ranges over every possibility.

`dafny verify dfyconfig.toml` checks the whole project.

## Where the code and its promises differ

- `$$` is collapsed before the literal marks are consulted (internal/shell/expand.go:45-52), so
  `'$$'` becomes `$` although single quotes are documented as literal. `TwoDollarsLoseOne` is the
  example; `MarkedWordKept` and `QuotedWordsKept` say exactly which words come through.
- README.md:404 says attachments up to 4 MiB restore inline. `ThreeNeedNot` is the example of
  three that do not; `AllInlineIff` says exactly when all of a document's attachments do.
- A line that returns nil has collected the composition of its stages, unless a stage's own
  error was `context.Canceled`: `execute` takes that for its own shutdown and reports success
  (internal/shell/pipeline.go:186-188). This is latent: every command returns that error only
  once the line's context is done, so no line of today's commands does it.
  `OwnCancellationIsLost` is the run of such a stage, `OwnCancellationIsReported` another run of
  the same line that does report it, and `OnlyCancelsLosesFailures` says which of the two a
  line whose stages fail in no other way gives.
- Restore accepts two attachments of one name under one document, whatever their sizes
  (`TwoOfOneName`). Inside the document the later entry overwrites the earlier
  (internal/command/restore.go:338), a later upload replaces an earlier one, and any upload
  replaces what travelled inside (internal/command/restore.go:199-207): `SameNameLosesOne` says
  which of the two is lost. `DumpCarries` says that a document ends up with each of its
  attachments once if and only if no two share a name. backup never writes such a dump, as
  `NamesDiffer` shows.
- backup --tombstones writes a deletion's attachments if the server lists any
  (internal/command/backup.go:216-232), and restore refuses an attachment after a deletion
  (internal/command/restore.go:307). `FinishedDumpRestores` says so exactly.
- --since on a run with --resume goes to that sequence, wherever the dump stands, and a dump begun
  with --since and stopped before its first checkpoint starts again from the beginning when it is
  resumed without (internal/command/backup.go:114-117). A dump that completes so repeats the rows
  between or lacks them: `AnySinceHappens` says what it holds, `SinceRepeatsOrLoses` is a feed of
  two rows for each case, and `HoldsTheRestIff` the exact condition: nothing is dumped between
  where the dump stands and where the run starts.
- A run killed when part of its first member is on disk, but not enough of it for one record to be
  read, leaves a file that --resume refuses as no dump (internal/backup/resume.go:137-139):
  `KilledTooEarly`. `AcceptedIff` says exactly which interrupted files it goes on with.
- A followed change that does not decode is skipped (internal/couch/bulk.go:216-222). In the
  last line of a body that loses nothing, because the next request asks for it again; before
  another change it is lost: `GarbledLosesAChange`. `ContiguousIff` is the condition, both ways.
- `cd x` and then `cd y` is `cd x/y` except after two kinds of walk that end in `..`:
  `ComposesExactly` gives the condition, both ways.
- splitStages does not know comments. A `|` inside one is a cut Parse does not make
  (`CommentHidesAPipe`), and an apostrophe inside one hides the cuts Parse does make on the lines
  below (`CommentOpensAQuote`). The pieces are the texts Parse reads its stages from if and only
  if the line has no comment (`PiecesAreTextsIff`); a comment without pipes, quotes and
  backslashes leaves every cut where Parse's is (`QuietCommentsKeepTheCuts`).

## Model

| member | source | states |
|---|---|---|
| `DumpFormat.RoundTrip` | internal/backup/format.go:126-204 | any sequence of accepted records, payloads arbitrary, decodes to itself with a clean end |
| `DumpFormat.Layout` | internal/backup/format.go:126-180 | a record is its line and a line feed, and for an attachment exactly its declared bytes and a line feed more |
| `DumpFormat.HeadersRead` | internal/backup/format.go:80-86 | headers of no version, 1.0 and 1.1 are read; any other stops the reader with its version |
| `DumpFormat.JunkStops` | internal/backup/format.go:251-321 | a line that is no record stops the reader, whatever follows |
| `DumpFormat.LastLine` | internal/backup/format.go:261-269 | a last line without its line feed is read where the stream ends, and is the stream's error where it broke |
| `DumpFormat.DecodeAppend` | internal/backup/format.go:251-321 | records written in front of any further bytes are read first and unchanged, and the rest reads as it would alone |
| `DumpFormat.DecodeTorn` | internal/backup/resume.go:112-119 | every byte prefix of a written stream yields a prefix of its records, possibly all, and then the stream's error, never a clean end |
| `DumpFormat.DecodeBounded` | internal/backup/format.go:295-302 | whatever the bytes, no attachment is handed more payload than it declares |
| `DumpFormat.Reader.Read` | internal/backup/format.go:301-302 | a caller gets the next bytes of the current payload only, and the records ahead stay |
| `DumpFormat.Reader.Next` | internal/backup/format.go:251-321 | the next record of the stream however much of the last payload was consumed, or the stream's own end |
| `DumpFormat.ReadBack` | internal/backup/format.go:219-260 | a caller consuming any part of each payload reads back every line and exactly the bytes it asked for |
| `DumpWriter.Writer.WriteRecord` | internal/backup/format.go:126-159 | one record more in the open member, or the latched error and nothing written |
| `DumpWriter.Writer.WriteAttachment` | internal/backup/format.go:161-180 | the att line, exactly the declared bytes, a newline; a source that ends early or a negative length is a terminal error |
| `DumpWriter.Writer.WriteCheckpoint` | internal/backup/format.go:184-199 | the checkpoint record ends its member, and the member is then whole on disk |
| `DumpWriter.Writer.CloseMember` | internal/backup/format.go:209-217 | the open member joins the whole ones, or the error is latched and the file stands |
| `DumpWriter.Writer.ReadsBack` | internal/backup/format.go:219-246 | whatever calls succeeded, the members closed are read back as exactly the records written, in order, behind the records of the dump appended to |
| `DumpScan.ScanMember` | internal/backup/resume.go:109-177 | one member's walk ends as its decoding does, with the counters of its records if it reads to its end |
| `DumpScan.CountersMean` | internal/backup/resume.go:156-188 | the counters are the numbers of documents, deletions and attachments and the bytes of them all, and Complete says that a footer was read |
| `DumpScan.SeqMeans` | internal/backup/resume.go:156-188 | Seq is the last checkpoint's |
| `DumpScan.Scan` | internal/backup/resume.go:76-194 | on any bytes at all, Offset, Seq, counters and Complete all describe the end of the longest run of whole members |
| `DumpScan.TornNeverClean` | internal/backup/resume.go:120-142 | a member that does not read to its end is never taken for one that does |
| `DumpFile.ScanOfMembers` | internal/backup/resume.go:108-193 | a checkpoint or footer decoded from the torn tail never leaks into what Scan reports |
| `DumpFile.ScanOfTornStart` | internal/backup/resume.go:88-140 | when no member is whole Scan starts from nothing, or refuses the file, and exactly when |
| `DumpFile.NoHeaderNoDump` | internal/backup/resume.go:137-155 | a gzip file whose first record is no header is no dump, whatever follows |
| `DumpFile.NewerIsRefused` | internal/backup/resume.go:120-142 | a dump of an unknown version is refused by that version |
| `DumpFile.CutAnywhere` | internal/backup/resume.go:65-75 | cutting a dump at any byte leaves whole members and a strict prefix of the next |
| `DumpFile.ScanOfPrefix` | internal/backup/resume.go:76-194 | for every byte prefix of a dump, Scan's answer is the counters and the end of the whole members in it |
| `DumpFile.ReadPack` | internal/backup/format.go:238-246 | member boundaries are invisible to a reader of the whole dump |
| `DumpFile.TornEndIsSeen` | internal/backup/format.go:224-246 | a dump with a torn member behind it reads to its whole members' records, some of the torn one's, and an error, never to a clean end |
| `DumpFile.JunkBehindIsSeen` | internal/backup/format.go:224-246 | with any other bytes behind it, to exactly its records and an error |
| `Backup.Job.KilledAtByte` | internal/command/backup.go:140-147 | a run killed after any number of bytes has stopped in one of the ways the proofs cover |
| `Backup.Job.PlanExtends` | internal/command/backup.go:181-245 | what a run writes, member by member, makes a longer dump of the one it continues: its content and the span of the feed from where the run starts to where it stops |
| `Backup.Job.MembersSound` | internal/backup/format.go:182-199 | every member but the last ends in a checkpoint, the first opens with the header, and together they hold the pages dumped |
| `Backup.Job.OneHeader` | internal/command/backup.go:140-154 | a finished dump opens with its header, and holds no other |
| `Backup.Job.PlanLength` | internal/command/backup.go:181-252 | a run that ends has written one member for every page of --batch rows, the last perhaps shorter, and one for the footer |
| `Backup.Job.CountMembers` | internal/command/backup.go:217-244 | the counters of whole members are those of the documents and attachments in them |
| `Backup.Job.ScanUnfinished` | internal/backup/resume.go:180-188 | on an unfinished dump Scan returns exactly the sequence and counters backup held at its last checkpoint |
| `Backup.Job.AcceptedIff` | internal/backup/resume.go:88-140 | --resume goes on with what an interruption left exactly when it holds a whole member, is too short for gzip's own header, or lets a record of its first member be read; any other file it takes for no dump |
| `Codecs.KilledTooEarly` | internal/backup/resume.go:137-139 | and there are interrupted runs that leave such a file |
| `Backup.Job.ScanDone` | internal/backup/resume.go:171-188 | a finished dump is reported complete, with the counters of all it holds |
| `Backup.Job.AttemptKeeps` | internal/command/backup.go:69-128 | one accepted run over an unfinished dump finishes it or leaves another unfinished one, adding what it read of the feed from where it starts; a run that ends finishes it |
| `Backup.Job.Interruptions` | internal/command/backup.go:69-252 | so does any number of runs, each stopped at any byte, with any flags: the dump holds what each read of the feed, in order |
| `Backup.Job.FinishedCount` | internal/command/backup.go:246-248 | the footer's three counts and sequence are those of the records in the file |
| `Backup.Job.EndedRunIsComplete` | internal/command/backup.go:246-252 | whatever the runs before it left, a run that reports success leaves a dump Scan calls complete |
| `Backup.Job.CompleteDumpIsWhatWasRead` | internal/command/backup.go:114-252 | a dump any chain of runs completes, with any flags, holds exactly what each of them read, from its start to its stop, the last to the end of the feed, behind the header of one of them and before a footer whose counts and sequence are those of the records |
| `BackupSince.CompleteDumpIsTheFeed` | internal/command/backup.go:69-252 | without --since that is the feed's revisions in feed order, none lost and none twice |
| `BackupSince.HoldsTheRestIff` | internal/command/backup.go:114-252 | the run that completes a dump begun at some sequence makes it the feed from there on if and only if nothing is dumped between where the dump stands and where that run starts; otherwise it holds the two spans |
| `BackupSince.LastRunDecides` | internal/command/backup.go:114-252 | the same of a whole chain of runs, when all but the last continue |
| `BackupSince.SinceHoldsTheRest` | internal/command/backup.go:114-252 | the complete dump of any chain of runs that continue holds exactly the feed from --since on, in order, and a footer that agrees |
| `BackupSince.AnySinceHappens` | internal/command/backup.go:114-117 | for every position of the feed and every sequence given to --since there is a chain of two runs whose complete dump holds the rows before the one and those after the other |
| `BackupSince.SinceRepeatsOrLoses` | internal/command/backup.go:114-117 | so on a feed of two rows an earlier sequence repeats a row and a later one loses one |
| `SplitAttachments.NamesDiffer` | internal/command/backup.go:284-296 | a revision's attachments come out in strictly ascending order of name, so no two share one |
| `SplitAttachments.OneOrder` | internal/command/backup.go:295-296 | names in ascending order come out one way only, so a dump is reproducible |
| `SplitAttachments.LessIs` | internal/command/backup.go:295-296 | that order is Go's order of strings: a proper prefix first, else by the first byte that differs |
| `SplitAttachments.SplitBody` | internal/command/backup.go:217-238 | the revision a body is dumped as, whatever order the map yields its names in |
| `SplitAttachments.SplitAttachments` | internal/command/backup.go:275-302 | the document without its stubs, the stubs' names sorted, and the id and revision; nothing for what is no object |
| `SplitAttachments.StripTakesTheStubs` | internal/command/backup.go:275-302 | stripping takes the stubs off and nothing else: id and revision are those a reader of the stripped document finds, the names are the stubs', once each, ascending |
| `SplitAttachments.SplitIsStripped` | internal/command/backup.go:209-232 | the revision dumped is the stripped document with an attachment for each of those names, in that order |
| `BackupRun.WriteRevision` | internal/command/backup.go:217-238 | one document, then its attachments in order, counted as they are written |
| `BackupRun.Fetch` | internal/command/backup.go:182-195 | the bodies asked for are the page's leaf revisions, deletions only under --tombstones |
| `BackupRun.WritePage` | internal/command/backup.go:181-245 | a page is one member: its documents, then a checkpoint; a failure leaves part of that member |
| `BackupRun.RunLoop` | internal/command/backup.go:181-252 | whatever stops it, the loop has written whole members of the plan and part of the next; if it ends, all of it |
| `BackupRun.Run` | internal/command/backup.go:69-252 | for every resume, existing file and flags, when it starts and which refusal it gives otherwise: a file there without --resume, none with it, and under --resume each of no dump, a newer version, another --tombstones and nothing left, told by what the file is; a run that starts is one of the attempts the theorems are about and reports success exactly when no write fails, having written all its plan |
| `BackupRun.OffsetWithin` | internal/backup/resume.go:196-208 | Scan's offset never lies past the end of the file, so Truncate never refuses it |
| `RestoreRule.DocumentsAreGroups` | internal/command/restore.go:271-362 | document by document, what restore builds of an accepted dump is each doc record with all its attachments under the one-document rule |
| `RestoreRule.GroupsAreTheRecords` | internal/command/restore.go:271-362 | and those groups spell the dump's documents and attachments again, so none is lost or moved |
| `RestoreRule.OrderedIff` | internal/command/restore.go:302-317 | the order restore asks for: every attachment has a document before it, with only attachments between, that it names and that is no deletion, and brings what it declares |
| `RestoreRule.InsideIff` | internal/command/restore.go:324-330 | an attachment goes inside exactly when it is at most 4 MiB and its base64 fits in 16 MiB beside that of those before it which do |
| `RestoreRule.CarriedExactly` | internal/command/restore.go:199-207 | a document ends up with each of its attachments exactly once, each having gone where the rule says, and with nothing else, if and only if no two share a name |
| `RestoreRule.DumpCarries` | internal/command/restore.go:302-362 | so it is for every document of every dump restore accepts |
| `RestoreRule.TwoOfOneName` | internal/command/restore.go:302-362 | restore accepts two attachments of one name under one document, whatever their sizes |
| `RestoreRule.SameNameLosesOne` | internal/command/restore.go:199-207 | one of them is lost: the document keeps the last uploaded, or else the later of two inside |
| `RestoreRule.TwoAlwaysInline` | internal/command/restore.go:324-330 | any two attachments of at most 4 MiB on one document go inline |
| `RestoreRule.ThreeNeedNot` | internal/command/restore.go:324-360 | three of exactly 4 MiB need 16 MiB and 8 bytes, so the third is spilled |
| `RestoreRule.AllInlineIff` | internal/command/restore.go:324-360 | all of a document's attachments go inline exactly when each is at most 4 MiB and their base64 fits in 16 MiB |
| `RestoreRule.BytesHeld` | internal/command/restore.go:334-359 | what a document counts for in its batch is its body, the base64 it carries and the spilled payloads that wait for it |
| `Restore.Database.WriteBatch` | internal/command/restore.go:174-213 | one bulk write per non-empty batch, holding exactly its documents, and then their uploads; a rejected write stores and uploads nothing; otherwise everything is stored, with the uploads before the one refused |
| `Restore.Database.UploadAll` | internal/command/restore.go:197-207 | what was spilled of each document is uploaded in order; a finished document holds what it carried inside and its uploads over that |
| `RestoreTarget.FinalIsHeld` | internal/command/restore.go:199-207 | and it keeps its revision exactly when nothing of it had to be uploaded |
| `RestoreTarget.Prepared` | internal/command/restore.go:406-426 | a missing target needs --create and is made partitioned exactly if the dump says so; a filled one needs --merge, and one that is there is never created |
| `Restore.Batcher.Flush` | internal/command/restore.go:215-224 | everything pending goes out in order and the totals start from zero, or writing failed and what the database holds is documents of it |
| `Restore.Batcher.FlushBefore` | internal/command/restore.go:231-243 | every document but the one being read goes out, and the totals are that one's |
| `Restore.Batcher.Begin` | internal/command/restore.go:271-300 | a batch closes only at a document boundary, and only when it is full; the new document is last |
| `Restore.Batcher.Take` | internal/command/restore.go:302-362 | an attachment is accepted exactly when it names the live document before it and brings what it declares, and then goes where that document's own rule says, whatever is pending beside it; documents ahead are sent early only when its base64 does not fit beside them |
| `Restore.Batcher.Add` | internal/command/restore.go:330-360 | the totals stay the sums over the pending documents and the base64 stays within 16 MiB |
| `Restore.Load` | internal/command/restore.go:245-379 | unless writing fails, the loop succeeds exactly on ordered, cleanly ending records and a fit target; it stops at the first record out of place or the first failed write, and the database then holds finished documents only; an unfit target is refused before anything is written |
| `Restore.LoadsIff` | internal/command/restore.go:84-172 | exactly which files load, in terms of the file alone: what Scan finds, how its records end, their order, and the last footer |
| `Restore.FooterAgreesIff` | internal/command/restore.go:380-390 | the last footer, if there is one, must count the documents, deletions and attachments there are |
| `Restore.BatchedMeans` | internal/command/restore.go:215-300 | what a batch holds: no more documents than --batch, no more than 16 MiB of base64, below 16 MiB in all but the last |
| `Restore.SentStays` | internal/command/restore.go:278-287 | a document once written is final: nothing read later changes it or its place |
| `Restore.Run` | internal/command/restore.go:84-404 | unless writing fails, restore succeeds exactly on the files described and a fit target, and each refusal says what is wrong with the file; it reads no further than the last whole member of an incomplete one, sends every document once, in order, in batches of bounded count, base64 and size, and leaves each with all its attachments; however it ends, the database holds documents of the dump, in order, each with the first of its uploads |
| `BackupRestore.FinishedDumpRestores` | internal/command/restore.go:380-390 | a dump backup finishes passes all three footer comparisons exactly when no deletion in it holds attachments, and then gives back what it holds, each revision with all its attachments |
| `BackupRestore.RevisionsDecide` | internal/command/restore.go:302-309 | restore accepts what backup writes of some revisions exactly when no deletion among them has attachments, and reads back those revisions |
| `BackupRestore.RestoredCarries` | internal/command/backup.go:275-302 | a revision ends up with exactly the attachments it had on the server |
| `BackupRestore.PartialDumpRestores` | internal/command/restore.go:129-142 | an unfinished dump loads under --partial, exactly when no deletion up to its last checkpoint has attachments, up to that checkpoint: the number of documents Scan reported, the torn member unread |
| `BackupRestore.WhatWasReadRestores` | internal/command/backup.go:69-252 | after any interruptions, with any flags, a dump Scan calls complete restores, exactly when no deletion in it has attachments, as the revisions its runs read, in order, each with all its attachments |
| `BackupRestore.SinceThenRestored` | internal/command/backup.go:114-252 | those are the feed's from --since on, each once, when every run continues |
| `BackupRestore.BackedUpThenRestored` | internal/command/backup.go:69-252 | and all the feed's when none is given --since |
| `BackupRestore.EndedRunRestores` | internal/command/backup.go:246-252 | so does the dump of any chain whose last run reports success |
| `BackupRestore.RestoreOfBackup` | internal/command/restore.go:84-426 | a whole restore of any completed dump, an empty one included: when it succeeds, what is then in the database, and that a missing target was created partitioned exactly as the database backed up, an existing one not created |
| `BackupRestore.RevisionsAre` | internal/command/backup.go:182-195 | the revisions of a span are the leaf revisions of its rows, deleted ones under --tombstones only |
| `PipelineSafety.StepKeeps` | internal/shell/pipeline.go:149-189 | every step of every stage, cancellation and shutdown keeps the invariant |
| `PipelineSafety.ReadKeeps` | internal/shell/pipeline.go:541-553 | receiving, taking one more waiting value into a batch, or seeing the stage above close, keeps it |
| `PipelineSafety.HandOnKeeps` | internal/shell/pipeline.go:555-565 | sending keeps it, and never overfills a channel |
| `PipelineSafety.RecordKeeps` | internal/shell/pipeline.go:45-51 | the first failure recorded stays, and in a line nobody cancelled it is one the composition has at that stage |
| `PipelineSafety.GiveUpKeeps` | internal/shell/pipeline.go:543-565 | taking the ctx.Done() branch, whatever else is ready, keeps it |
| `PipelineSafety.OnCourse` | internal/shell/pipeline.go:154-171 | while no failure is recorded, every stage is on its way to what the composition of the stages says |
| `PipelineSafety.OneResult` | internal/shell/pipeline.go:338-369 | the composition of a line has at most one result, however often its source is asked |
| `PipelineSafety.NilMeansComposition` | internal/shell/pipeline.go:149-189 | a line that returns nil has collected exactly the sequential composition of its stages, for every interleaving and every choice of every select, in every run where no stage itself failed with context.Canceled |
| `PipelineSafety.FailureIsOwn` | internal/shell/pipeline.go:37-57 | when the caller did not cancel, a failing line returns the first failure recorded, and it is the error that same stage has in the sequential composition, not the line's own shutdown, under the same condition |
| `PipelineSafety.NoOwnCancellationAnywhere` | internal/shell/pipeline.go:183-188 | a line none of whose stages can fail with context.Canceled has only runs the two theorems above cover |
| `PipelineSafety.ChannelsAreBounded` | internal/shell/pipeline.go:16-20 | no channel ever holds more than 64 values, and what a stage has sent is what the next has read plus what waits |
| `PipelineSafety.RunsAgree` | internal/shell/pipeline.go:96-108 | two runs of one line that return nil captured the same values |
| `PipelineSafety.AnswerIsTrue` | internal/shell/pipeline.go:59-82 | the last stage is told its source is live exactly when it is, unless that source failed |
| `PipelineEmission.ReadingIsEmission` | internal/shell/pipeline.go:325-369 | what a stage emits as it reads is the values of its reaction to each history in turn, up to and including the first that stops or fails, and that reaction is its status |
| `PipelineEmission.ClosedIsEmission` | internal/shell/pipeline.go:338-369 | and at the end of its input those of its finish too, if nothing had stopped it |
| `PipelineEmission.StagesEmit` | internal/shell/pipeline.go:541-565 | in every state of every run, what a stage has sent and holds ready is exactly that, less only the lot a lagging stage failed with |
| `PipelineEmission.ReturnedStages` | internal/shell/pipeline.go:149-189 | a stage that returned nil has sent all it emits |
| `PipelineEmission.ReadTakes` | internal/shell/pipeline.go:541-553 | what one value read adds, what a failing reaction keeps, and what it loses when its stage lags |
| `PipelineEmission.SendsUntilFull` | internal/shell/pipeline.go:16-20 | a stage can send exactly while fewer than 64 values wait below it, and sends its oldest behind them |
| `PipelineEmission.NilMeansEmissions` | internal/shell/pipeline.go:149-189 | a line that returns nil has collected what its last stage emits, each stage over all the one above emits |
| `PipelineEmission.FailureIsAnEmission` | internal/shell/pipeline.go:37-57 | and a failing one, that nobody cancelled, fails as one of its stages so does |
| `PipelineLiveness.Progress` | internal/shell/pipeline.go:149-189 | until execute returns, some stage can take a step |
| `PipelineLiveness.NeverStuck` | internal/shell/pipeline.go:177-181 | no reachable state of a line is stuck, the final wait for its stages included |
| `PipelineLiveness.ReportsBeforeSending` | internal/shell/pipeline.go:328-337 | every producer reports its liveness before it sends its first value |
| `PipelineLiveness.StepDecreases` | internal/shell/pipeline.go:338-369 | a stage's own step brings its measure down |
| `PipelineLiveness.OthersKeep` | internal/shell/pipeline.go:541-565 | and the steps of the stages below leave that measure alone |
| `PipelineLiveness.EveryRunEnds` | internal/shell/pipeline.go:112-190 | with a source that stops there is no infinite run, whatever the scheduler does |
| `PipelineCancellation.OwnCancellationIsLost` | internal/shell/pipeline.go:186-188 | a source that itself fails with context.Canceled makes its line return nil with values the composition does not give |
| `PipelineCancellation.OwnCancellationIsReported` | internal/shell/pipeline.go:183-188 | and in another run of the same line it is reported, the last stage having taken the cancellation branch |
| `PipelineCancellation.OnlyCancelsLosesFailures` | internal/shell/pipeline.go:183-188 | if every failure of the stages is context.Canceled and the composition fails, every finished run the caller did not cancel has a stage that so failed, and returns nil exactly when its last stage did |
| `PipelineConsumers.Consume` | internal/command/pipeconsume.go:41-214 | whatever lots its values come in, a consumer that answers for each value on its own emits what its stage does in the composition, and fails when that does |
| `ShellText.Utf8` | internal/shell/parse.go:141-149 | one rune's bytes: itself if ASCII, otherwise only bytes no ASCII rune has |
| `ShellText.RuneReadsBack` | internal/shell/parse.go:141-149 | a rune's bytes in front of any others decode to that rune |
| `ShellText.BytesApart` | internal/shell/parse.go:141-149 | different words have different bytes |
| `ShellText.TrimLeft` | internal/shell/parse.go:162 | takes off spaces only, and all of them |
| `ShellText.TrimRight` | internal/shell/parse.go:162 | takes off spaces only, and all of them |
| `ShellText.TrimmedBy` | internal/shell/parse.go:162 | trimming takes spaces off both ends of a text and nothing else |
| `ShellParse.Parse` | internal/shell/parse.go:110-254 | the parser's loop, its comment-skipping inner loop included, computes the line automaton's stages or error |
| `ShellScanners.NeedsMore` | internal/shell/parse.go:261-312 | the loop answers exactly when its automaton ends escaped, quoted or with open brackets |
| `ShellScanners.SplitStages` | internal/shell/shell.go:181-213 | cutting the bytes at offsets counted by rune widths gives the bytes of the pieces |
| `ShellAgreement.SamePlace` | internal/shell/parse.go:182-240 | Parse and NeedsMore are in the same quote, escape, comment and token state after every prefix |
| `ShellAgreement.CompleteMeansClosed` | internal/shell/parse.go:256-312 | a line NeedsMore calls complete is never one Parse finds an unterminated quote in |
| `ShellAgreement.OpenIffUnterminated` | internal/shell/parse.go:241-243 | Parse reports an unterminated quote only where NeedsMore sees one, and there always fails unless the line is a capture |
| `ShellAgreement.DepthIsWorstTail` | internal/shell/parse.go:296-303 | NeedsMore's depth is the worst bracket balance of any tail of the line, outside quotes and comments |
| `ShellAgreement.NeedsMoreIff` | internal/shell/parse.go:256-312 | the shell reads on exactly when the line ends in a quote or behind a backslash, or some tail of it opens more brackets than it closes |
| `ShellAgreement.Rejoin` | internal/shell/shell.go:178-213 | on every line the pieces joined with pipes are the line |
| `ShellAgreement.PiecesAreStages` | internal/shell/parse.go:159-181 | on an accepted ordinary line without comments splitStages cuts at exactly Parse's boundaries, each stage being what its piece says on its own |
| `ShellAgreement.ExprIsItsPiece` | internal/shell/parse.go:162-171 | and each jq stage's text is its piece, trimmed |
| `ShellAgreement.StagesHaveTexts` | internal/shell/parse.go:159-196 | comments or not, the stages Parse returns are, one for one, what each text it collects says on its own |
| `ShellAgreement.PiecesAreTextsIff` | internal/shell/shell.go:178-213 | splitStages' pieces are those texts if and only if the line has no comment |
| `ShellAgreement.QuietCommentsKeepTheCuts` | internal/shell/shell.go:178-213 | comments without pipes, quotes and backslashes leave every cut where Parse ends a stage, so there are as many pieces as stages |
| `ShellAgreement.AcceptedExactly` | internal/shell/parse.go:159-169 | an ordinary line without comments is accepted exactly when it ends outside quotes and has no empty stage, or is blank; and which lines begin with an empty stage |
| `ShellAgreement.StageKinds` | internal/shell/parse.go:164-178 | stage 1 is a command stage, and a later stage is one if and only if it has a first word and that is a registered command; otherwise it is its text, trimmed |
| `ShellAgreement.CommentHidesAPipe` | internal/shell/parse.go:191-196 | a pipe inside a comment is cut by splitStages and dropped by Parse |
| `ShellAgreement.CommentOpensAQuote` | internal/shell/shell.go:190-211 | an apostrophe in the comment of a continued line: Parse returns two stages, splitStages one piece |
| `ShellWords.FragmentTaken` | internal/shell/parse.go:204-239 | each way of writing part of a word - bare, single-quoted, double-quoted, after a backslash - adds its content and exactly the marks its rule gives |
| `ShellWords.WordTaken` | internal/shell/parse.go:141-149 | a word written in any mixture of them is their contents in one, its marks at the byte offsets of the right "$" |
| `ShellWords.WrittenWordsParse` | internal/shell/parse.go:100-254 | any command so written parses to one stage of exactly those words, with a "$" marked where it stands in single quotes, after a backslash, or after a double quote of the word, and nowhere else |
| `ShellPipelines.WrittenPipelinesParse` | internal/shell/parse.go:159-181 | any number of such commands joined by "|" parse to one stage each: the first, and every later one whose first word is registered, a command of exactly its words and marks; every other its text, trimmed |
| `ShellExpand.RunEnd` | internal/shell/expand.go:114-117 | the longest run of name bytes |
| `ShellExpand.IndexFrom` | internal/shell/expand.go:93 | the first occurrence, or that there is none |
| `ShellExpand.DecimalIsNumeral` | internal/shell/expand.go:163-164 | "$#" is the decimal numeral of the argument count, without leading zeros |
| `ShellExpand.NthArgument` | internal/shell/expand.go:165-170 | the numerals of 1 to 9 name the arguments in their order; one past the last is not set |
| `ShellExpand.ReadReference` | internal/shell/expand.go:88-134 | the scanning loops read the reference the specification does |
| `ShellExpand.ReferenceSpellsItsName` | internal/shell/expand.go:84-104 | a reference spells its own name, bare or in braces, and in braces it is always a name |
| `ShellExpand.BareName` | internal/shell/expand.go:114-134 | "$" and a name are the variable of that name, the whole run of name bytes |
| `ShellExpand.BareEnv` | internal/shell/expand.go:122-132 | "$env." and a name are that name of the environment |
| `ShellExpand.Braces` | internal/shell/expand.go:88-104 | braces hold a name, or their word is malformed; empty they are text |
| `ShellExpand.NamesInBraces` | internal/shell/expand.go:140-152 | what may stand in braces: "#", one digit, a variable's name, or "env." and one |
| `ShellExpand.ValueOfEach` | internal/shell/expand.go:160-188 | what each kind of reference stands for, and the error that names one not set |
| `ShellExpand.OneReference` | internal/shell/expand.go:38-70 | one reference in braces with plain text around it: the text stays and the value stands between, or its error is the word's; what is no name is an error that quotes it |
| `ShellExpand.DollarAlone` | internal/shell/expand.go:54-70 | a "$" that begins no reference stays as typed |
| `ShellExpand.TokensAreTheWord` | internal/shell/expand.go:32-70 | reading a word as tokens loses nothing of it |
| `ShellExpand.ExpandWord` | internal/shell/expand.go:38-70 | a word expands to its tokens' values in order, or to the first error among them |
| `ShellExpand.ExpandStage` | internal/shell/expand.go:16-30 | words expand one for one, never split again; the first that fails is the stage's error |
| `ShellExpand.MarkedCollapses` | internal/shell/expand.go:45-53 | in a word whose every "$" is marked, "$$" collapses and nothing else changes |
| `ShellExpand.CollapseShortens` | internal/shell/expand.go:45-49 | collapsing changes a word exactly when it holds two adjacent "$" |
| `ShellExpand.MarkedWordKept` | internal/shell/expand.go:72-82 | so a fully marked word is kept exactly when it holds no two adjacent "$" |
| `ShellQuoting.ParseMarksDollars` | internal/shell/parse.go:25-34 | every command stage has a word, and its marks are strictly increasing in-range offsets of "$" |
| `ShellQuoting.QuotedWordsParse` | internal/shell/parse.go:211-216 | any non-empty list of words, single-quoted, parses to one command stage of exactly those words with every "$" marked |
| `ShellQuoting.QuotedWordsExpand` | internal/shell/expand.go:38-70 | and each word expands to itself with every "$$" collapsed |
| `ShellQuoting.QuotedWordsKept` | internal/shell/expand.go:16-30 | so all come through unchanged exactly when none holds two adjacent "$" |
| `ShellQuoting.TwoDollarsLoseOne` | internal/shell/expand.go:45-49 | '$$' expands to a single "$" |
| `ShellQuoting.CaptureKeepsThePipeline` | internal/shell/parse.go:69-87 | "set name = pipeline", however spaced, keeps the pipeline as typed, whatever it holds |
| `ShellQuoting.CaptureHasItsShape` | internal/shell/parse.go:69-87 | nothing else is taken for a capture |
| `Path.SplitPath` | internal/path/path.go:170-178 | the non-empty segments, in order |
| `Path.SplitJoin` | internal/path/path.go:148-178 | joining segments and splitting again is the identity |
| `Path.Clean` | internal/path/path.go:108-149 | the loop over segs and pops lands where the walk does, and fails exactly on a relative base |
| `Path.BasesAre` | internal/path/path.go:108-118 | only a relative base is refused, an empty one is the root, and an absolute path does not ask for it |
| `Path.OutOfAPartition` | internal/path/path.go:151-168 | where "..", "../p2", "../.." and "../../name" lead from a partition and from a document of it, and that a separator typed out stays |
| `Path.CleanComposes` | internal/path/path.go:119-147 | Clean(Clean(b,x),y) = Clean(b,x/y) when x's walk ends on a name or y only climbs |
| `Path.ClimbsAreSingleClimbs` | internal/path/path.go:119-136 | n climbs in one path are n single climbs |
| `Path.ComposesExactly` | internal/path/path.go:119-168 | for a given b and x the law holds for every relative y if and only if the walk forgets nothing |
| `Path.ForgottenStep` | internal/path/path.go:151-162 | in every other case a concrete y breaks it |
| `PathResolve.DecodeAll` | internal/path/path.go:209-216 | every segment decoded, or the error of one that cannot be; what decoding is, the lemmas on Encode say |
| `PathResolve.DecodeEncode` | internal/path/path.go:189-201 | Decode reverses Encode, for every byte string |
| `PathResolve.EscapeDecodes` | internal/path/path.go:193-201 | "%" and two digits are one byte, the first digit the high one, in either case of letters |
| `PathResolve.BadEscapes` | internal/path/path.go:193-201 | a "%" without two digits behind it cannot be decoded |
| `PathResolve.EncodedIsSegment` | internal/path/path.go:187-191 | an encoded name is one segment: it holds no slash, and is empty only if the name is |
| `PathResolve.EncodedNamesResolve` | internal/path/path.go:203-345 | "/", a database and "/", an id, each encoded, resolve from any directory to that document if and only if neither is "." or ".." and the id is not "_partition" or "_design" |
| `PathResolve.WhatIsNamed` | internal/path/path.go:217-345 | which lists of segments name something, and which error each other list gives |
| `PathResolve.OnlyItsOwnFields` | internal/path/path.go:60-97 | a target has no field its kind does not name |
| `PathResolve.CleanAgain` | internal/path/path.go:106-149 | cleaning a canonical path from any directory changes nothing |
| `PathResolve.ResolveIsStable` | internal/path/path.go:203-345 | from a canonical base, every target is reproduced by resolving its own path from anywhere |
| `PathResolve.TargetSpellsItsPath` | internal/path/path.go:217-345 | a target's fields spell the decoded segments of its path again, a partition's document in full, so none is lost, swapped or misfiled, exactly unless it is an attachment whose document is spelled "_design%2F..."; then they spell it the usual way |
| `PathResolve.StepUpResolves` | internal/path/path.go:300-309 | stepping up from a target resolves exactly when its parent is not a bare separator |
| `PathResolve.QualifiedOnce` | internal/path/path.go:360-374 | short and qualified ids name one document, and qualifying twice is qualifying once |
| `PathResolve.ShortFormReturns` | internal/path/path.go:376-383 | shortening an id and qualifying it returns it exactly when it is of the partition and its short form does not look qualified |
| `Paging.AllDocs` | internal/couch/database.go:185-249 | a page and the key of the row after it, or the whole rest |
| `Paging.RestartAt` | internal/couch/database.go:244-247 | the range from a row's own id is the rest of the range from that row on |
| `Paging.AllDocsStream` | internal/couch/database.go:251-271 | with any page size, 500 rows if none is given, the callback sees every row of the range once, in order, and the walk ends; or exactly the full pages before the request that failed, or the rows up to the first refused |
| `Paging.RangeIsAll` | internal/couch/database.go:185-200 | the range is exactly the rows between the keys, strictly ordered |
| `Paging.BoundsAre` | internal/couch/database.go:185-200 | both keys are included, and an empty one is no bound |
| `Tail.Backoff` | internal/command/tail.go:288-300 | one second, doubling with each attempt, and 30 from the sixth on |
| `Tail.ReconnectableIs` | internal/command/tail.go:302-317 | a body that ended, an unreachable server and a status of 500 or more are reconnected to, and nothing else |
| `Tail.Producer.ChangesFollow` | internal/couch/bulk.go:209-234 | a request hands on, in order, each change of its body that decodes, after the one it started from, until the callback meets the cancellation; the reader then stands at the last one handed on |
| `Tail.Producer.Follow` | internal/command/tail.go:333-367 | across any reconnects each request starts where the last change handed on left off; a notice names that change and waits by the schedule, which starts again after any change; the follow ends with the first request that gives it a reason, a cancellation before any other |
| `Tail.FruitlessMeans` | internal/command/tail.go:333-367 | the wait grows with the requests that brought nothing since one handed a change on |
| `Tail.WhyIs` | internal/command/tail.go:343-367 | why a follow ends: the operator's cancel before anything a request reports, then an error that is not reconnected to, then a cancel of the wait |
| `Tail.ContiguousIff` | internal/couch/bulk.go:216-222 | the changes handed on are a contiguous run of the feed if and only if no body skipped a change before one it handed on |
| `Tail.GarbledLosesAChange` | internal/couch/bulk.go:216-222 | a change that does not decode is lost when another follows it in its body, and asked for again when none does |
| `Tail.Stream.Next` | internal/command/tail.go:370-388 | a change while there is one, then one reason for ever |
| `Tail.ReadFollow` | internal/command/tail.go:323-389 | what is read are the changes handed on, in feed order and none twice - a contiguous run from the starting sequence when none was skipped - then the same reason on every read |
| `PipeConsume.Pipe.Next` | internal/command/pipe.go:51-63 | a value, the end, or the cancellation |
| `PipeConsume.Pipe.TryNext` | internal/command/pipe.go:65-79 | only what is waiting, and nothing taken otherwise |
| `PipeConsume.NextBatch` | internal/command/pipeconsume.go:41-78 | whatever is waiting when, the next 0 to 100 values in order, checked with their positions; fewer only when nothing waits or the end has come, empty only at the end; only the wait for the first can be cancelled |
| `PipeConsume.AllBatches` | internal/command/pipeconsume.go:182-214 | the batches partition the pipeline's values in order into lots of 1 to 100, all of them unless the line is cancelled or a value is refused: then the first refused is named, and only the lot it is in is lost |
| `PipeConsume.ByDatabase` | internal/command/pipeconsume.go:269-282 | databases in order of first appearance, each with its references in order |
| `PipeConsume.GroupingKeepsAll` | internal/command/pipeconsume.go:272-282 | grouping loses no reference and repeats none |
| `PipeConsume.FillRevisions` | internal/command/pipeconsume.go:284-315 | each reference keeps its revision, or gets the current one, or has none |
| `PipeConsume.RmBatch` | internal/command/pipeconsume.go:317-359 | one result per reference, in position, repeated ids included: not found without a revision, else the answer to its own document |
| `PipeConsume.AnswerIs` | internal/command/pipeconsume.go:317-359 | which result that is: its own place among the documents sent |

## Left out

- PipelineSafety.NilMeansComposition: asks that no stage of the run failed with context.Canceled itself; a run with such a stage may still collect the composition, for instance when the stages below had already stopped, so the condition is not also necessary. OnlyCancelsLosesFailures decides the lines whose composition fails and whose stages fail in no other way.
- ShellAgreement.PiecesAreStages: asks for a line without comments; on others PiecesAreTextsIff says that the texts differ, and QuietCommentsKeepTheCuts when the cuts still agree, one way only.
- ShellScanners.SplitStages: the line is valid UTF-8, as the line editor hands it over; on invalid bytes Go's runes and the widths counted from them differ from the bytes of the line.
- Restore.Batcher.Take: pending documents are values and the current one is the last of them; the source shares one pendingDoc between `current` and `pending`, and that aliasing is not modelled.
- Restore.Database.WriteBatch: a rejected bulk write leaves nothing behind, though the server may have stored some of its documents; an upload the server takes is made at the revision the one before it left.
- BackupRun.Fetch: whether the revisions of a page can be fetched is asked once for the page, as is whether its rows can.
- BackupSince.CompleteDumpIsTheFeed: the feed is fixed while it is dumped, and its sequences name positions.
- BackupSince.HoldsTheRestIff: both ways for the run that completes a dump; of a chain in which several runs do not continue CompleteDumpIsWhatWasRead says what it holds.
- Pipeline stages: a stage is a deterministic reader of its input. put, rm and cat read on while values wait, which the steps allow; their answers are taken value by value, so two documents of one id in one lot of put, which _all_docs is asked about once, and a request that fails for a whole lot are not covered.
- Pipeline start: session commands at the head, line preferences, the lazy connection and error sentences come before or after the steps modelled.
- Consumers: dropAndResolveRevs, requireObject, ParseReference and catPipeline's rows are not modelled; a check is any function of a value and its position.
- ShellPipelines.WrittenPipelinesParse: a line that has the shape of a capture is CaptureKeepsThePipeline's, and one with comments that of the lemmas on texts.
- Compression and JSON: gzip is a self-delimiting frame whose strict prefixes yield a prefix of the payload (section 2.2 of RFC 1952), JSON an injective encoding without newlines; multi-gigabyte lengths do not wrap.
- The calls behind prepareTarget, temp files, progress output, file modes and fsync: I/O.
- Redaction, completion, history, authentication, configuration and the administrative commands: branchy, but each is settled by reading one branch.
