# Verified models of the RomM backend

This project models the parts of the RomM backend where state, time and failure meet, and
proves what they keep. RomM is a game library server: devices upload and download saves and
report what is being played, scans attach metadata to ROM files, and emulator containers are
lent to players over a stream.

Most subjects have two files: one holds the data model, the specification functions and, where
the program changes things step by step, a class or methods that do the same, each proved equal
to its specification; the other holds the properties. `dafny verify dfyconfig.toml` checks
everything.

| files | subject |
|---|---|
| `SaveSync`, `SaveServer`, `SaveSyncProofs`, `SaveSyncOutcomes`, `SaveSyncStamps`, `SaveSyncSharing`, `SaveSyncConfirmations` | multi-device save sync: rows, files, per-device stamps, retention; what each request does; what a stamp vouches for; files that rows share; confirmations that come late |
| `Negotiation`, `NegotiationProofs` | what a sync negotiation answers, and how that fits the requests carrying it out |
| `Promotion`, `PromotionProofs`, `PromotionRaces`, `PromotionRaceRuns` | turning a single-file ROM into a folder ROM, undoing it, and doing it from several workers |
| `MemoryCards`, `MemoryCardProofs` | the card a streaming container still holds: probe, settle, hydrate, launch |
| `StreamingPool`, `StreamingClaim` | claims on a pool of containers, takeover of abandoned ones, drains |
| `Templates`, `TemplateProofs`, `TemplateRefusals`, `PlatformLayouts` | library layout templates, why one is refused, and which layouts a platform has |
| `ConfigStore`, `ConfigStoreProofs`, `ConfigReadings` | reading and writing the configuration file, its setters, and what each path of the file means |
| `MetadataMerge`, `MetadataMergeProofs` | merging provider answers by priority, scene lock, selective reset |
| `PlaySessions`, `PlaySessionProofs` | play-session ingest |
| `Activity`, `ActivityProofs` | currently-playing entries and their per-ROM index |
| `NameSort`, `NameSortProofs` | the natural-sort key and its self-syncing column |
| `PackageNames` | collision-free package names |
| `Counterexamples` | one literal run for each promise that holds only under a condition |
| `Common` | options, least elements, decimal numerals |

## What the proofs found

Several promises hold only under a condition. The code is modelled as it is; for each there is a
concrete run that breaks the promise, in `Counterexamples` or beside the proofs, and a statement
of exactly when it holds.

- Save sync. A device's stamp vouches for content it holds exactly as long as every request is
  truthful: a device that is stamped without exchanging bytes (a confirmation, a PUT without a
  file, untracking) holds what the row has now, and one that is stamped for bytes it is sent, or is
  current already, is sent what the row says. No upload spoils a stamp, whichever path it goes to.
  `SaveSyncStamps.StepVouchesExactly` is exact for every request and `StampsVouchExactly` for every
  run; no update is lost in a truthful run. A confirmation that arrives after the save was replaced
  in place lets the device overwrite an update it never saw; one that arrives late is harmless if
  nobody else gave the row other content since the device was served (`SaveSyncConfirmations`).
  That stamps vouch, bytes and rows agree and rows share no file, all together, is what
  `SaveSyncProofs.StepExactly` is exact about: an upload's path must then be used by no other row.
  A second upload of the same content within the second of the first deletes the only copy.
- Save files. Rows may share a file: the same bytes uploaded to two slots under one name do, and
  deleting one save takes the other's bytes, and new content for one is what a device is sent for
  the other. `SaveSyncSharing.StepAgreesExactly` says for every
  request when each row's path goes on holding what the row says.
- Negotiation against upload. A planned slot upload is refused exactly when the server has a save
  for the slot and the device has no stamp on it: planning falls back to comparing timestamps,
  while the upload insists on a stamp.
- Promotion. Workers interleave, and some act on a look they took before another put the file into
  the folder: they remove the folder as if it were empty or, without an extension, stage it as if
  it were the file. The bytes are held throughout a race exactly when no worker does either
  (`PromotionRaces.RacingPromotionsKeepTheBytes`); a lone worker never does, nor any number of them
  when every look is acted on at once or, with an extension, when nothing raises. An extensionless
  ROM is not put back when anyone else is in the folder. Rows beside the file's own are repointed
  at files that do not exist.
- Memory cards. Adopting a container's card into a card made for the claim is undone with the
  claim if hydration or launch fails, but the recorded decision is not; the next claim is not
  asked and wipes the card. A version row whose archive is missing counts as a stored copy. A card
  that could not be captured when its session ended is wiped by the next claim as well.
- Metadata. A ROM with a scene id on record is to stay with the scene sources even when they cannot
  be reached. A complete rescan starts without the stored ids, so it locks only if a scene source
  answers: with Pouët unreachable, a known production keeps its Pouët id and takes the id and the
  name a catalog has for a similar title. `MetadataMergeProofs.HandedOverExactly` says when.
- Layout templates. Under a platform's own name a printed layout parses back exactly when no
  folder above the platform's has that name.
- Configuration. An empty binding is written and makes the next start refuse the file; a default
  exclusion cannot be removed for longer than until the next load.
- Sort keys. The key is computed a second time by its own validator, so a title whose key starts
  with another article ("The A Team") gets a key that does not belong to it and then stops
  following the name.
- Activity. An entry whose device id contains a colon is never returned for its ROM. The id of a
  streaming session is the container's address, which has a scheme, so none of them ever is. An
  entry that moved is returned for the ROM it left until that ROM's index runs out, which whoever
  else plays it puts off; every
  ROM is given only its own entries exactly when no device beats while another ROM lists it.
- Package names. Names run out when another package's file name spells out a file's last resort.

Documentation and code disagree in four places, and the model follows the code. The docstring of
`scene_apply_sources` says a ROM carrying a scene id stays locked, which a complete rescan does not
see; the promotion comment says only what the call itself did is undone; the sort-key docstring
says the column stays in sync with the name; and a comment in `lifecycle.py` says the next claim
prompts to adopt a card that was left behind, which it does only while no decision is on record.

## Model

| member | source | states |
|---|---|---|
| SaveSyncProofs.ComparisonIsFair | backend/handler/sync/comparison.py:16-73 | exchanging the copies exchanges upload and download; over a stamped save an upload leaves no server change behind and a download no client change; unequal copies are left alone only when neither moved since the last sync |
| SaveSyncOutcomes.ComparedExactly | backend/handler/sync/comparison.py:16-73 | which of the four actions the comparison gives, for every pair of digests, pair of times and last sync |
| SaveSync.NewestOf | backend/endpoints/saves.py:219-226 | the row the conflict check reads is in the slot and no row of the slot is newer |
| SaveSync.ClampLimit | backend/endpoints/saves.py:180-180 | the number of saves retention keeps is the one asked for, brought into 1 to 100 |
| SaveSyncProofs.StepExactly | backend/endpoints/saves.py:161-353 | from a state where bytes and rows agree, rows share no file and stamps vouch for held content, every request of any kind keeps all of that if and only if it is clean |
| SaveSyncProofs.UploadExactly | backend/endpoints/saves.py:264-317 | an upload keeps that invariant if and only if it is refused, or its target path is used by no row but the one it overwrites (by no row at all for a duplicate) |
| SaveSyncProofs.ValidKept | backend/endpoints/saves.py:161-353 | every request, clean or not, keeps timestamps distinct, names distinct within a slot, and stamps out of the future |
| SaveSyncProofs.PutExactly | backend/endpoints/saves.py:575-676 | a PUT keeps the invariant exactly when it carries a file or its device holds the present content |
| SaveSyncProofs.TrackExactly | backend/handler/database/device_save_sync_handler.py:108-142 | changing the tracking flag keeps the invariant exactly when it does not create a stamp for content the device does not hold |
| SaveSyncOutcomes.TrackMeans | backend/handler/database/device_save_sync_handler.py:108-142 | the flag of an existing stamp is changed, a missing one is created only to untrack, and every other stamp stays |
| SaveSyncProofs.DownloadKeeps | backend/endpoints/saves.py:492-547 | a download, whoever asks and whether or not it is optimistic, keeps the invariant |
| SaveSyncProofs.NoOpStampKeeps | backend/tasks/sync_push_pull_task.py:276-283 | the push-pull task's stamp on a no-op is sound: the action is a no-op only for equal content, or for a device already stamped at the row's time |
| SaveSyncProofs.DeliveryOverwrites | backend/sync_watcher.py:250-284 | a watcher or push-pull delivery that replaces a save comes from a device that held the replaced content, or from one without a stamp whose file is newer |
| SaveSyncOutcomes.DeliveryMeans | backend/sync_watcher.py:250-284 | a delivered update replaces the row's bytes and digest, and the device is stamped after it |
| SaveSyncOutcomes.NothingToMove | backend/tasks/sync_push_pull_task.py:276-283 | when there is nothing to move the watcher changes nothing and the push-pull task stamps the device |
| SaveSyncOutcomes.ConflictIsLeftAlone | backend/sync_watcher.py:250-284 | in a conflict neither the watcher nor the push-pull task changes a row, a byte or a stamp |
| SaveSyncOutcomes.VisibilityMeans | backend/endpoints/saves.py:682-707 | toggling visibility moves the row's timestamp alone, so no device is current on it afterwards |
| SaveSyncProofs.RunKeeps | backend/endpoints/saves.py:161-353 | over any run of clean requests from a good state the whole invariant holds at the end |
| SaveSyncProofs.RunKeepsExactly | backend/endpoints/saves.py:161-353 | from an empty server the invariant holds at every moment of a run if and only if the run is clean |
| SaveSyncStamps.StepVouchesExactly | backend/endpoints/saves.py:161-353 | from a valid state in which every stamp vouches for held content, any request keeps that if and only if it is truthful, whatever becomes of the files |
| SaveSyncStamps.UploadSound | backend/endpoints/saves.py:248-353 | no upload spoils a stamp: duplicate, overwriting, on a shared path or with retention |
| SaveSyncStamps.StampsVouchExactly | backend/endpoints/saves.py:161-353 | from an empty server, every stamp vouches for held content at every moment of a run if and only if every request of it is truthful |
| SaveSyncStamps.NoLostUpdate | backend/endpoints/saves.py:219-237 | after any truthful run from an empty server, a slot upload without overwrite is accepted only from a device holding the slot's newest save, or into an empty slot |
| SaveSyncStamps.UnslottedRefusedExactly | backend/endpoints/saves.py:238-246 | an upload without a slot and without overwrite is refused if and only if some row has its ROM, name and slot and the device has a stamp on it older than the row |
| SaveSyncStamps.SlottedRefusedExactly | backend/endpoints/saves.py:219-237 | an upload to a slot without overwrite is refused if and only if the slot's newest row has no stamp of the device that reaches it |
| SaveSyncStamps.ForcedIsAccepted | backend/endpoints/saves.py:219-246 | an upload that overwrites or names no device meets no conflict |
| SaveSyncStamps.NoLostUnslottedUpdate | backend/endpoints/saves.py:238-246 | after any truthful run from an empty server, an upload without a slot is accepted over an existing row only from a device that holds its content or was never stamped on it |
| SaveSyncStamps.CleanIsTruthful | backend/endpoints/saves.py:161-353 | every clean run is truthful |
| SaveSyncProofs.RetentionKeepsNewest | backend/endpoints/saves.py:334-347 | autocleanup leaves exactly min(n, limit) rows of the slot, each newer than every row it dropped, the one just stored among them |
| SaveSyncProofs.ExpiredIsTail | backend/endpoints/saves.py:334-347 | the rows that retention drops are exactly those past the limit in the newest-first listing |
| SaveSyncProofs.SlotUploadOnlyAdds | backend/endpoints/saves.py:280-353 | an accepted upload under a new name, on a path no row uses, adds one row that retention leaves, and every other row outside the expired set keeps its digest, its timestamp and its bytes |
| SaveSyncProofs.LateConfirmationLosesUpdate | backend/endpoints/saves.py:549-569 | four requests, from an empty server, after which a device that never held a slot's newest content is allowed to overwrite it |
| SaveSyncProofs.RetryWithinTheSecondDeletesTheSave | backend/endpoints/saves.py:264-278 | an accepted upload repeated under the same tagged name leaves the row and removes its bytes |
| SaveSyncOutcomes.DuplicateMeans | backend/endpoints/saves.py:264-278 | an upload is taken for a duplicate exactly when it goes to a slot without overwriting, meets no conflict and some row of the slot has its content; it then costs the target path's bytes and nothing else |
| SaveSyncOutcomes.StoredOverNamesake | backend/endpoints/saves.py:215-302 | an accepted upload goes to the row of its ROM, name and slot if there is one |
| SaveSyncOutcomes.StoredElsewhere | backend/endpoints/saves.py:280-290 | failing that, to the first row on its path if that one has other content, and otherwise to a new row |
| SaveSyncOutcomes.StoredMeans | backend/endpoints/saves.py:280-328 | an accepted upload without retention leaves its row, its bytes and the stamp of its device, and drops the bytes the row had elsewhere exactly when no other row points there |
| SaveSyncOutcomes.RefusedChangesNothing | backend/endpoints/saves.py:219-246 | a refused upload leaves everything as it was |
| SaveSyncSharing.StepAgreesExactly | backend/endpoints/saves.py:280-347 | whether or not rows share files, every row's path goes on holding what the row says if and only if the request spares the files: no surviving row is on a written path with other content, or on a removed one |
| SaveSyncSharing.StoredBacked | backend/endpoints/saves.py:304-316 | storing an upload never drops stale bytes another row uses: a row is left without its own exactly when it is on the target path with other content |
| SaveSyncSharing.BytesAndRowsAgreeExactly | backend/endpoints/saves.py:161-353 | from an empty server, bytes and rows agree at every moment of a run if and only if every request of it spares the files |
| SaveSyncConfirmations.StepHoldsExactly | backend/endpoints/saves.py:161-353 | a device that holds a row's content goes on holding it if and only if the request neither gives the row other content from elsewhere nor sends the device other bytes for it |
| SaveSyncConfirmations.LateConfirmationVouches | backend/endpoints/saves.py:549-569 | after any truthful run since the device was served the row, in which nobody else gave it other content and the device was sent no other bytes for it, a confirmation leaves every stamp vouching for held content |
| SaveSyncConfirmations.ConfirmationAfterServing | backend/endpoints/saves.py:549-569 | a confirmation keeps the whole invariant, however late, if since the device was served nobody else gave the row other content |
| Counterexamples.DeletingOneTakesTheOther | backend/endpoints/saves.py:719-769 | the same bytes in two slots under one name: deleting one save leaves the other without bytes |
| Counterexamples.ServedTheOthersBytes | backend/endpoints/saves.py:535-547 | new content for one of the two rows: a device served the other is stamped current for content that row does not speak of |
| SaveServer.Server.AddSave | backend/endpoints/saves.py:161-353 | the upload as it runs ends in the state and with the outcome its specification gives, conflict, duplicate and retention included |
| SaveServer.Server.CheckConflict | backend/endpoints/saves.py:219-246 | the check refuses exactly when the specification does, against the newest row of a slot or the row of that name |
| SaveServer.Server.StoreUpload | backend/endpoints/saves.py:280-328 | the row, the bytes, the removal of stale bytes and the stamp are those of the specification |
| SaveServer.Server.UpdateUploaded | backend/endpoints/saves.py:291-316 | overwriting a row drops the bytes it leaves exactly when no other row uses them |
| SaveServer.Server.AutoCleanup | backend/endpoints/saves.py:334-347 | the deletion loop removes exactly the expired rows with their files and stamps |
| SaveServer.Server.SlotSaves | backend/endpoints/saves.py:220-225 | a slot's rows, all of them, strictly newest first |
| SaveServer.Server.DownloadSave | backend/endpoints/saves.py:492-547 | serves the row's bytes, stamps only an optimistic owner's device, and nothing when the file is missing |
| SaveServer.Server.ConfirmDownload | backend/endpoints/saves.py:550-572 | stamps the device at the row's present timestamp |
| SaveServer.Server.UpdateSave | backend/endpoints/saves.py:575-676 | writes the file when there is one, then stamps the device at the resulting timestamp |
| SaveServer.Server.UpdateSaveVisibility | backend/endpoints/saves.py:682-707 | toggling visibility gives the row a new timestamp and nothing else |
| SaveServer.Server.DeleteSaves | backend/endpoints/saves.py:719-769 | deletes in order up to the first id that is missing; those before it stay deleted |
| SaveServer.Server.SetUntracked | backend/handler/database/device_save_sync_handler.py:108-142 | changes only the flag of an existing stamp, and creates one only when untracking |
| SaveServer.Server.ProcessIncoming | backend/sync_watcher.py:227-330 | the first slotted save of that name on the platform, and the watcher's branches: write and stamp, deliver and stamp, or leave everything alone |
| SaveServer.Server.ProcessRemote | backend/tasks/sync_push_pull_task.py:225-339 | the first slotted save of that name on the platform, and the push-pull branches, including the no-op stamp and the failed transfer that stamps nothing |
| SaveServer.FirstOfThatName | backend/sync_watcher.py:225-239 | a delivered file goes to the first slotted save of the platform that has its name, and to none if no slotted save has it |
| SaveServer.Server.PushMissing | backend/tasks/sync_push_pull_task.py:342-417 | the loop over a platform's saves whose file names the device does not list equals a run of single pushes, and counts the transfers that were stamped |
| Negotiation.Negotiate | backend/endpoints/sync.py:181-348 | the operations are those of the specification, the four totals count them, and planned plus no-ops is their number |
| Negotiation.NewestPerKey | backend/endpoints/sync.py:188-196 | the dictionary holds for every (ROM, slot) the row a scan keeps, in first-appearance order |
| Negotiation.ClientPass | backend/endpoints/sync.py:208-267 | one operation per client save, in order, and the set of rows they were paired with |
| Negotiation.MissingPass | backend/endpoints/sync.py:269-316 | the downloads for rows the client did not mention |
| NegotiationProofs.NewestIsLeader | backend/endpoints/sync.py:191-196 | without ties the row kept for a key is the one strictly newer than all others of the key |
| NegotiationProofs.FirstOfTheNewest | backend/endpoints/sync.py:191-196 | of rows of a key with the same latest time the first in query order is kept |
| NegotiationProofs.ScopeIsRespected | backend/endpoints/sync.py:181-190 | whenever a request gives a scope, every operation that names a row is for a ROM of the scope or of the client's saves |
| NegotiationProofs.CoveredIsConsidered | backend/endpoints/sync.py:181-196 | the newest slotted row of a ROM the request covers is what every client save of its slot is answered about, and without one it is offered unless the device untracked it or has it |
| NegotiationProofs.ClientAnswerMeans | backend/endpoints/sync.py:208-267 | the operation for a client save, field by field, from the newest row of its slot and the stamp on it |
| NegotiationProofs.OfferMeans | backend/endpoints/sync.py:291-316 | an offer names the row it offers, field by field |
| NegotiationProofs.NothingArchivalOrSuperseded | backend/endpoints/sync.py:187-196 | every operation that names a row names a live, slotted row that is the newest of its key |
| NegotiationProofs.MissingExactly | backend/endpoints/sync.py:268-316 | a download is offered for exactly the newest unmentioned rows never stamped or updated after their stamp, each once |
| NegotiationProofs.OrderDoesNotMatter | backend/endpoints/sync.py:187-316 | for any order of the rows without ties the client's operations are the same and the same downloads are offered |
| NegotiationProofs.Converges | backend/endpoints/sync.py:268-316 | after confirming every offered download, the same payload gets the same answers for its own saves and is offered nothing |
| NegotiationProofs.DroppedStaysUnoffered | backend/endpoints/sync.py:279-290 | through any run of any requests, no download is offered for a stamped save the client drops, whatever it lists, until the save's row is updated |
| NegotiationProofs.PlannedUploadAccepted | backend/endpoints/saves.py:219-237 | a planned slot upload is refused exactly when the slot has a save the device has no stamp on |
| Counterexamples.PlannedUploadIsRefused | backend/endpoints/saves.py:219-237 | after one upload, a second device is told to upload its newer copy and refused |
| Promotion.Library.PromoteSingleFileToFolder | backend/handler/rom_conversion.py:26-102 | the promotion as it runs, with its rollback, leaves the disk, the rows and the result of the specification whichever operations raise |
| Promotion.Library.RunRestore | backend/handler/rom_conversion.py:57-78 | the rollback returns the file and drops the folder only if it is empty, in the order of each case |
| Promotion.Library.MoveFileOrFolder | backend/handler/filesystem/base_handler.py:620-651 | a move that succeeds makes missing parents, goes inside a directory of that name and replaces a file |
| PromotionProofs.MoveOntoItself | backend/handler/filesystem/base_handler.py:620-651 | moving something to where it is changes nothing |
| PromotionProofs.Endings | backend/handler/rom_conversion.py:79-92 | every disk a promotion can leave behind: the start, the finished one, or one of the stages in between |
| PromotionProofs.LeftAloneExactly | backend/handler/rom_conversion.py:26-43 | a ROM is returned unchanged exactly when it is no simple single file, refused exactly when its folder name is taken, by a directory if it is its own name, and nothing changes either way |
| PromotionProofs.ReadyExactly | backend/handler/rom_conversion.py:30-43 | the starting point of the results on promotion: the file where its row says, the staging name and the folder name free |
| PromotionProofs.PromotedNamesItsFolder | backend/handler/database/roms_handler.py:2281-2303 | a promoted ROM is named after its folder, every file row is in it, and the bytes are there under the old name |
| PromotionProofs.BytesSurvive | backend/handler/rom_conversion.py:30-92 | whichever step raises, forward or undoing, exactly one of origin, staged and final is a file and holds the bytes, and no other path has changed |
| PromotionProofs.RollbackIsExact | backend/handler/rom_conversion.py:57-92 | when the undoing does not itself raise, a promotion either succeeds or leaves disk and rows exactly as they were |
| PromotionProofs.PromotedIsStable | backend/models/rom.py:959-961 | promoting a promoted ROM again changes nothing |
| PromotionProofs.RowsFollowBytes | backend/handler/database/roms_handler.py:2281-2303 | after a promotion every file row names existing bytes if and only if the ROM had just one row |
| PromotionProofs.NamesakesCounted | backend/models/rom.py:1150-1167 | for files beside the ROM the top-level count is the number named like it |
| PromotionProofs.ExtensionlessReturnExactly | backend/handler/rom_conversion.py:66-72 | undoing an extensionless promotion returns the file if and only if the folder holds nothing else; otherwise it lands inside under its staging name, or stays staged |
| PromotionRaces.RacingPromotionsKeepTheBytes | backend/handler/rom_conversion.py:27-92 | any number of workers, interleaved and interrupted anywhere, with or without an extension: the bytes are in exactly one place at every moment if and only if no worker stages or removes the finished folder on an outdated look |
| PromotionRaces.RaceKeepsTheBytesExactly | backend/handler/rom_conversion.py:46-92 | with an extension, they are in exactly one place at the end if and only if no worker removed the folder with the file in it |
| PromotionRaces.HarmlessRaceTouchesOnlyItsOwn | backend/handler/rom_conversion.py:46-92 | such a race changes no path but the ROM's own, and a converted row has its bytes |
| PromotionRaces.RaceEndsClean | backend/handler/rom_conversion.py:57-92 | when such a race is over, nothing raised while undoing and every owner's removal found the folder it saw, one promotion stands or the disk is the starting one |
| PromotionRaces.UninterruptedIsHarmless | backend/handler/rom_conversion.py:38-54 | no worker harms when nobody else runs between a look and the act on it |
| PromotionRaces.LoneWorkerIsHarmless | backend/handler/rom_conversion.py:27-92 | a worker that has the ROM to itself never harms, whatever raises |
| PromotionRaces.UnraisedIsHarmless | backend/handler/rom_conversion.py:73-85 | with an extension, no worker harms when nothing raises, however many come too late |
| PromotionRaceRuns.TwoStepDropLosesTheBytes | backend/handler/rom_conversion.py:51-54 | on any disk, an interleaving of two workers leaves the bytes at none of the three paths |
| PromotionRaceRuns.SecondWorkerBuriesTheFile | backend/handler/rom_conversion.py:41-85 | on any disk, without an extension and with nothing raised, two workers both succeed and the file is one folder below the path of its row |
| Counterexamples.RacesOnTheShelf | backend/handler/rom_conversion.py:41-85 | both races on a literal library |
| Counterexamples.RowBesideIsLeftBehind | backend/handler/database/roms_handler.py:2281-2303 | a ROM with a save file recorded beside it is promoted and the save's row names no file |
| Counterexamples.SharedFolderIsNotUndone | backend/handler/rom_conversion.py:66-72 | with another file in the folder an extensionless ROM is not put back |
| MemoryCards.Host.ProbeContainerCard | backend/endpoints/streaming.py:395-459 | the answer of the probe for every combination of decision, readability, content and choice; every refusal has released the claim |
| MemoryCards.Host.SettleMemoryCard | backend/endpoints/streaming.py:462-536 | the mounted or blank card, the import, and the decision recorded only then; a failed import leaves no blank |
| MemoryCards.Host.HydrateSaves | backend/endpoints/streaming.py:552-568 | pushes the newest readable version or a blank, and gives the claim up if that fails |
| MemoryCards.Host.ClaimSession | backend/endpoints/streaming.py:601-760 | the whole claim up to the launch equals its specification |
| MemoryCardProofs.ClaimKeepsExactly | backend/endpoints/streaming.py:395-568 | a card nobody has decided on and nobody has stored is kept by a claim if and only if the claim does not adopt it into a blank card it then gives up, nor on the strength of a version whose file is missing |
| MemoryCardProofs.OverwrittenOnlyOnDiscard | backend/endpoints/streaming.py:499-568 | an undecided card is overwritten only on "discard", or when the mounted card's newest version row equals it and its archive is missing |
| MemoryCardProofs.FoundCardIsKept | backend/endpoints/streaming.py:395-568 | over any run of such claims, plays and releases the card is still there and undecided, or stored, or "discard" is on record and some claim of the run answered so |
| MemoryCardProofs.ForgottenCardIsLost | backend/endpoints/streaming.py:528-568 | for any state, an adoption into a blank card whose push or launch fails, followed by any successful claim of a player without a card, destroys the card with "adopt" on record |
| MemoryCardProofs.PlayedCardSurvivesExactly | backend/handler/streaming/lifecycle.py:108-122 | what a finished session left on the container outlives the next claim if and only if it was stored before, or the end of the session captured it into a history without it |
| Counterexamples.AdoptedThenWiped | backend/endpoints/streaming.py:528-568 | a card adopted by a claim whose push fails is wiped by the next claim |
| Counterexamples.RecordedThenBlanked | backend/endpoints/streaming.py:499-568 | a card recorded as a version whose archive is gone is adopted and blanked |
| Counterexamples.UncapturedThenWiped | backend/handler/streaming/lifecycle.py:364-372 | a card that could not be read at the end of its session is wiped by the next claim |
| MemoryCardProofs.DecidedOnce | backend/handler/database/container_adoptions_handler.py:22-43 | a recorded decision never changes, and one is recorded only by a claim that had to ask |
| MemoryCardProofs.AnsweredExactly | backend/endpoints/streaming.py:395-459 | when a claim ends in the import prompt, in each refusal and in a launch, over the world and the answer it brought |
| MemoryCardProofs.PromptIsAnswered | backend/endpoints/streaming.py:422-453 | a claim that was asked what to do with the card and repeats itself with an answer is not asked again |
| MemoryCardProofs.WipedOnlyWhenCaptured | backend/handler/streaming/lifecycle.py:108-122 | a session's end takes the card off the container exactly when it was captured and wiped, and a captured card is on file |
| MemoryCardProofs.PlayedCardIsTheSlot | backend/handler/streaming/lifecycle.py:108-122 | playing writes the card in the slot and nothing else |
| MemoryCardProofs.ClaimsCloseUp | backend/handler/streaming/lifecycle.py:39-57 | a claim that does not launch frees the container and leaves no card behind; one that does has the mounted card's newest version, or a blank, in the slot |
| StreamingPool.WinsOnlyAFreeContainer | backend/endpoints/streaming.py:305-322 | a container is won only from a key with nothing live on it, which then holds this claim |
| StreamingPool.HolderDisplacedOnly | backend/handler/streaming/lifecycle.py:374-405 | a holder loses its key only by TTL, by its own exit or release, or to a teardown that found it stale in that very step |
| StreamingPool.AttendedSessionIsKept | backend/handler/streaming/session_store.py:485-502 | in every run, whatever claims and teardowns run beside it, a session whose heartbeats stay within the stale window holds its container to the end |
| StreamingPool.DrainIsKept | backend/handler/streaming/session_store.py:314-347 | in every run a refreshed drain marker that nobody drops stands to the end |
| StreamingPool.ExitDrains | backend/handler/streaming/session_store.py:284-311 | the holder's exit leaves a marker of its own token for 60 seconds and nothing else changes; anyone else's does nothing |
| StreamingPool.MarkerKeptAndDropped | backend/handler/streaming/session_store.py:314-417 | a refreshed marker lasts another 60 seconds, a dropped one leaves the container free, and a marker answers to its own token alone |
| StreamingPool.ReleaseFrees | backend/handler/streaming/session_store.py:420-436 | a release frees the container at once and does nothing for anyone but its holder |
| StreamingPool.BeatLastsExactly | backend/handler/streaming/session_store.py:485-502 | after a beat a session counts as abandoned after 180 seconds and is gone after six hours |
| StreamingPool.OtherKeysStay | backend/handler/streaming/session_store.py:164-222 | beats, exits, releases and marker writes leave every other container as it is |
| StreamingPool.MarkerDisplacedOnly | backend/handler/streaming/session_store.py:404-417 | a drain marker goes only by its own token or its TTL |
| StreamingPool.EvictsLastWithinBudget | backend/endpoints/streaming.py:333-355 | in every reachable state a claim hands a holder to teardown only after every candidate refused it, only a stale one, and with a budget that fits in what is left of the one shared wait |
| StreamingPool.WaitsExactly | backend/endpoints/streaming.py:333-351 | in every reachable state a claim that hands over an abandoned holder waits for exactly what is left of the 30 seconds since every candidate had refused it, read off the run |
| StreamingPool.WaitEndsExactly | backend/handler/streaming/lifecycle.py:439-463 | a wait goes on until the teardown ends or the time is up, and only a teardown that ended well has the claim try again |
| StreamingPool.WaitsHalfAMinuteAtMost | backend/endpoints/streaming.py:333-355 | in every run the seconds that pass while a claim waits come to 30 at most, however many holders it hands over |
| StreamingClaim.GrantedTeardownWins | backend/endpoints/streaming.py:347-355 | if the teardown ended well while the claim waited and the key is free when it tries again, the claim wins it, whatever the others do in between |
| StreamingClaim.AbandonedIsTakenOver | backend/endpoints/streaming.py:333-355 | undisturbed, a claim that comes to a holder unseen for more than 180 seconds gets its container |
| StreamingPool.FirstFreeWins | backend/endpoints/streaming.py:319-322 | undisturbed, a claim wins the first free container in config order for six hours and touches no other key |
| StreamingPool.AllHeldIsSwept | backend/endpoints/streaming.py:319-333 | undisturbed, a claim that finds every container held has been refused by each and then begins to look for an abandoned one |
| StreamingPool.RefusedByAll | backend/endpoints/streaming.py:357-381 | in every reachable state a claim is refused exactly when its look has passed every candidate, each of which refused it, and the refusal says whether the first is draining |
| StreamingPool.RetryGoesOn | backend/endpoints/streaming.py:354-355 | a try again that finds the container taken leaves its holder alone and looks at the next candidate |
| StreamingPool.StaleOnceWonExactly | backend/endpoints/streaming.py:306-317 | a container is held as last seen when its claim arrived: right after the win it counts as abandoned exactly if that was more than 180 seconds before |
| StreamingPool.BornOnArrival | backend/endpoints/streaming.py:601-700 | a claim keeps its candidates and the moment it arrived through every step of everyone, and starts with nothing tried |
| StreamingPool.OneTeardownPerMarker | backend/handler/streaming/lifecycle.py:374-433 | while a teardown's marker stands no other teardown works or starts behind it |
| StreamingPool.NothingWonOverATeardown | backend/handler/streaming/lifecycle.py:394-433 | in every run, while a teardown of a container works no claim holds or wins it, unless its marker has lapsed on the way |
| StreamingPool.LapsedIsWon | backend/handler/streaming/session_store.py:314-347 | once the marker has lapsed, the next claim that tries the container wins it although the teardown works |
| StreamingClaim.Redis.WinContainer | backend/endpoints/streaming.py:294-381 | both loops as they run, with any run of other requests between any two of their steps, are a run of the pool; the container returned is held by this claim, a 409 means every candidate refused, and the waits together stay within the one budget |
| StreamingClaim.Redis.TryClaim | backend/endpoints/streaming.py:305-317 | a try wins exactly when nothing live was on the key, and touches no other key |
| StreamingClaim.Redis.AwaitTeardown | backend/handler/streaming/lifecycle.py:439-463 | starts the teardown of exactly the stale holder seen, only once every candidate refused; returns when it ends or the budget does, and says whether it ended well in time |
| StreamingClaim.MeanwhileKeeps | backend/endpoints/streaming.py:294-381 | no run of other requests changes what a claim knows or forgets a teardown it waits for |
| Templates.StructureConfig.Validate | backend/config/config_manager.py:1160-1221 | lowercases the keys, later entries winning, and accepts exactly the configurations whose entries all parse and share one platform folder |
| TemplateProofs.RoundTrip | backend/config/config_manager.py:106-196 | every layout printed as sections parses back to itself; under a platform's slug, if and only if no folder above the platform's carries it |
| TemplateProofs.RoundTripByName | backend/config/config_manager.py:135-163 | a layout printed with the platform's own folder name parses back to itself if and only if no folder above the platform's carries that name |
| Counterexamples.NestedLayoutIsMisread | backend/config/config_manager.py:135-163 | `psx/{platform}/{game}`, read for the platform "psx", is another layout |
| TemplateProofs.AcceptedExactly | backend/config/config_manager.py:106-196 | a template is accepted if and only if one section names the platform, only folders that do not name it come before, and only folders and wildcards up to the closing game |
| TemplateProofs.AcceptedWithoutSlug | backend/config/config_manager.py:106-196 | without a slug, if and only if it ends in the only `{game}`, has exactly one `{platform}`, only folders before it, and no dot, malformed, empty or reserved section |
| TemplateProofs.ParseDeclared | backend/config/config_manager.py:183-196 | what an accepted template parses to, section by section |
| TemplateProofs.FirmwareAcceptedExactly | backend/config/config_manager.py:199-219 | a firmware template is accepted if and only if it is one `{platform}` among folder names |
| TemplateProofs.AcceptedIsSafe | backend/config/config_manager.py:517-532 | once a configuration is accepted, every folder name resolves to layouts, all with the default's platform folder, each with its games at or under the platform's path |
| PlatformLayouts.OwnLayouts | backend/config/config_manager.py:517-532 | in an accepted configuration a platform whose lowercased name has an entry, neither empty nor reserved, has one layout for each of its templates, in order, each what that template declares under that name |
| PlatformLayouts.DefaultLayout | backend/config/config_manager.py:501-532 | any other platform has the single default layout |
| PlatformLayouts.ConfigurationAcceptedExactly | backend/config/config_manager.py:1160-1221 | a configuration is accepted if and only if its reserved entries parse and every template of every other entry parses under the entry's name and has the platform folder where the default has it |
| PlatformLayouts.EntriesAcceptedExactly | backend/config/config_manager.py:1160-1221 | the same for the entries as they stand in the file |
| PlatformLayouts.LastAlikeWins | backend/config/config_manager.py:1165-1170 | of entries whose names lowercase alike the last gives the value |
| PlatformLayouts.FirmwareLayout | backend/config/config_manager.py:511-515 | the firmware layout is that of the firmware entry, or the default one |
| PlatformLayouts.GamesStartExactly | backend/config/config_manager.py:73-88 | a layout's games start at the platform's folder and the named levels down to the first wildcard |
| PlatformLayouts.SectionMeans | backend/config/config_manager.py:118-133 | a section is a folder exactly when it has no brace, and a macro exactly when one pair encloses a name that is neither blank nor reserved |
| PlatformLayouts.CapitalsAreLowered | backend/config/config_manager.py:1165-1170 | lowercasing takes each capital to its letter and leaves everything else |
| PlatformLayouts.SpaceMeans | backend/config/config_manager.py:118-133 | what counts as white space inside a macro |
| TemplateRefusals.ReasonIsTrue | backend/config/config_manager.py:106-196 | a template is refused for a reason that is true of its sections, for each of the nine reasons |
| ConfigStore.ConfigManager.Apply | backend/config/config_manager.py:1397-1500 | a setter changes memory as specified, also when the file cannot be written, and the file only by a complete rewrite |
| ConfigStore.ConfigManager.GetConfig | backend/config/config_manager.py:1291-1303 | settings are replaced by what the file loads as, or left alone when it is refused |
| ConfigStoreProofs.NumericNameLoads | backend/config/config_manager.py:902-920 | a platform folder written as a number is read as the text of that number |
| ConfigStoreProofs.SaveThenLoad | backend/config/config_manager.py:1305-1395 | whatever settings are in memory, what is written loads if and only if it is acceptable, and then comes back settled |
| ConfigReadings.LoadsExactly | backend/config/config_manager.py:922-1290 | a file is read if and only if the value at every path the program reads is of its kind, the structure and the controls among them, and no retired folder setting is left |
| ConfigReadings.LoadedMeans | backend/config/config_manager.py:666-868 | every setting is the value at its path, or its default; an exclusion list holds what is always excluded and what its path lists, extensions in lower case |
| ConfigReadings.EmptyFileMeans | backend/config/config_manager.py:666-868 | an empty file is accepted and stands for the defaults, the orders of the sources among them |
| ConfigReadings.StreamingWrittenExactly | backend/config/config_manager.py:1377-1384 | the streaming section is written if and only if it says something |
| ConfigStoreProofs.LoadedIsAtRest | backend/config/config_manager.py:666-884 | loaded settings are settled and acceptable |
| ConfigStoreProofs.PersistenceIsStable | backend/config/config_manager.py:1305-1395 | loading what was just saved from a loaded configuration gives that configuration back |
| ConfigStoreProofs.ChangeThenReload | backend/config/config_manager.py:1397-1500 | every setter followed by a save and a restart changes only what it names, with the exact exceptions |
| ConfigReadings.BindingReplacesNothing | backend/config/config_manager.py:1397-1406 | adding a binding leaves every binding there is, and the lowercased folder has the one asked for if it had none |
| ConfigReadings.VersionReplacesNothing | backend/config/config_manager.py:1419-1428 | the same for versions |
| ConfigReadings.AddedOnce | backend/config/config_manager.py:1397-1451 | a repeated addition is not written again and changes nothing |
| ConfigReadings.ExcludedOnce | backend/config/config_manager.py:1441-1451 | an exclusion joins its own list, once, and no other |
| ConfigReadings.NameIsRemoved | backend/config/config_manager.py:1408-1439 | removing a binding or a version is always written, and takes that name and nothing else |
| ConfigReadings.ExclusionIsRemoved | backend/config/config_manager.py:1453-1462 | removing an exclusion is always written, takes one entry of that value from its list, and no other list changes |
| ConfigReadings.UnknownPictureIsRefused | backend/config/config_manager.py:1464-1502 | a scan update is written if and only if both its pictures are media the program knows |
| ConfigReadings.ScanUpdateArrives | backend/config/config_manager.py:1464-1502 | after a restart a written scan update is found setting by setting, less unknown media and pictures the tags do not allow, and everything else is as it was |
| ConfigReadings.RefusedUpdateStays | backend/config/config_manager.py:1464-1502 | an update refused for a picture has replaced in memory exactly what is assigned before that picture |
| Counterexamples.EmptyBindingStopsTheStart | backend/config/config_manager.py:1397-1500 | from a file that loads, binding a folder to an empty platform is written and the next start refuses it |
| Counterexamples.DefaultExclusionReturns | backend/config/config_manager.py:1305-1395 | from a file that loads, a default exclusion taken off its list is back after the next start |
| MetadataMerge.RomScan.Scan | backend/handler/scan_handler.py:1330-1398 | seeding, reset, lock and both loops as they run give the dictionary of the specification |
| MetadataMerge.RomScan.Seed | backend/handler/scan_handler.py:489-578 | a scan's dictionary takes the stored ids, blobs and texts along unless the ROM is new or rescanned completely |
| MetadataMerge.RomScan.AddRom | backend/handler/database/roms_handler.py:687-687 | storing the dictionary leaves the attributes it does not have as they were |
| MetadataMerge.RomScan.MergeMetadata | backend/handler/scan_handler.py:1377-1385 | the reversed loop over whole answers equals overlaying from the lowest priority up |
| MetadataMerge.RomScan.MergeArtwork | backend/handler/scan_handler.py:1387-1398 | the loop over artwork fields, each under its own order |
| MetadataMerge.RomScan.ResolveFetches | backend/handler/scan_handler.py:583-599 | a source counts as attempted when its lookup ran and did not raise |
| MetadataMergeProofs.FirstByPriority | backend/handler/scan_handler.py:1377-1398 | every artwork field takes the first truthy answer under its own order, every other field the first under the metadata order, and a field nobody answers keeps its prior value |
| MetadataMergeProofs.FirstByConfiguredPriority | backend/handler/scan_handler.py:192-230 | an artwork field with an override takes the first truthy answer along that list, without one along the artwork order, any other field along the metadata order, and unlisted sources come only when no listed one answers |
| MetadataMergeProofs.AnswerIsItsOwn | backend/handler/scan_handler.py:1377-1385 | a source's answer is that of its own lookup, and a source without one answers nothing |
| MetadataMergeProofs.LeaderByPriority | backend/handler/scan_handler.py:192-230 | the leading source of an order is the first listed one that is present, duplicates included, and an unlisted one only if none is |
| MetadataMergeProofs.SceneOnlyWhenLocked | backend/handler/scan_handler.py:130-145 | on a locked ROM every field the loops change holds a scene source's answer |
| MetadataMergeProofs.UnlockedAppliesEveryone | backend/handler/scan_handler.py:130-145 | without a lock every source with a match may write |
| MetadataMergeProofs.RescanForgetsWithReason | backend/handler/scan_handler.py:1330-1337 | after a complete rescan the stored id of a provider is newly matched, or forgotten exactly because its lookup ran without failing or it was deselected, or the one stored before |
| MetadataMergeProofs.AttemptedExactly | backend/handler/scan_handler.py:583-599 | a source counts as attempted if and only if a lookup of its ran without raising and none raised afterwards |
| MetadataMergeProofs.RescanClearsArtwork | backend/handler/scan_handler.py:1339-1352 | after a complete rescan an artwork address is a fresh answer or empty, and stored pictures and locks are gone |
| MetadataMergeProofs.BlobGoesWithTheId | backend/handler/scan_handler.py:1330-1337 | a provider's blob is forgotten together with its id |
| MetadataMergeProofs.LockedExactly | backend/handler/scan_handler.py:1360-1368 | a ROM with a scene id on record is locked if and only if the scan carries its ids over or some scene source answered |
| MetadataMergeProofs.HandedOverExactly | backend/handler/scan_handler.py:130-145 | a catalog may write to such a ROM if and only if it is scanned anew, no scene source answers and some catalog does |
| MetadataMergeProofs.KnownProductionIsKept | backend/handler/scan_handler.py:130-145 | a scan that carries its ids over leaves every field of such a ROM's row as it was or gives it a scene source's answer |
| Counterexamples.ProductionTakesTheCatalogsName | backend/handler/scan_handler.py:1360-1368 | a known Pouët production, Pouët unreachable and IGDB matching: a complete rescan gives it IGDB's id and name |
| MetadataMergeProofs.SgdbCoverExactly | backend/handler/scan_handler.py:1530-1551 | SteamGridDB's cover is used exactly when it leads the cover order over every provider that has a cover, applied or not |
| MetadataMergeProofs.SgdbMeans | backend/handler/scan_handler.py:1530-1551 | SteamGridDB's id is the one it found, or forgotten by a complete rescan that asked; a locked cover and every other field are never touched |
| PlaySessions.PlayLog.IngestPlaySessions | backend/handler/play_session_handler.py:64-168 | the ingest as it runs stores the sessions, advances the ROMs and returns the results of the specification; created plus skipped is the number of entries |
| PlaySessions.PlayLog.Deduplicate | backend/handler/play_session_handler.py:107-134 | the loop over seen keys keeps one entry per key and none whose key exists |
| PlaySessions.PlayLog.ApplyPlayToRomUser | backend/handler/play_session_handler.py:41-61 | whatever order the updates are visited in, each ROM is advanced by its own newest end |
| PlaySessionProofs.ExactlyOneResult | backend/handler/play_session_handler.py:90-144 | every input index gets exactly one result, with the verdict that can be read off the batch: too late, on record or earlier in the batch, or created |
| PlaySessionProofs.CreatedIsStored | backend/handler/play_session_handler.py:107-134 | every created result has its session on record, with its ROM, start and end |
| PlaySessionProofs.SessionsStayDistinct | backend/handler/play_session_handler.py:107-134 | no two stored sessions of a device share ROM and start, and every ingest keeps it so |
| PlaySessionProofs.ReplayIsANoOp | backend/handler/play_session_handler.py:107-134 | replaying a batch on any later log that still has its sessions changes nothing |
| PlaySessionProofs.ReplayCreatesNothingAgain | backend/handler/play_session_handler.py:107-134 | also under a later clock no entry handled before is created again |
| PlaySessionProofs.LastPlayedIsNewest | backend/handler/play_session_handler.py:41-61 | a ROM's last played is exactly the newest of its previous value and the sessions created for it; deliberate statuses are untouched and nothing moves without it |
| PlaySessionProofs.StatusMeans | backend/handler/play_session_handler.py:41-61 | what playing makes of each status a player can have set |
| PlaySessionProofs.LastPlayedOverRuns | backend/handler/play_session_handler.py:141-150 | over any sequence of ingests it is the newest of its start and all created sessions |
| PlaySessionProofs.OrderDoesNotMatter | backend/handler/play_session_handler.py:141-150 | when equal keys carry equal ends, the order of a batch does not change it |
| Activity.ActivityHandler.GetActiveForRom | backend/handler/activity_handler.py:209-237 | returns exactly the live entries the ROM's members lead to and drops exactly the members that lead nowhere |
| Activity.ActivityHandler.Set | backend/handler/activity_handler.py:146-156 | stores the entry for 90 seconds and its member for 120 |
| Activity.ActivityHandler.Clear | backend/handler/activity_handler.py:158-178 | removes the entry and its member from the index of the entry's present ROM, and says which ROM that was |
| ActivityProofs.MemberParses | backend/handler/activity_handler.py:216-222 | an index member leads back to its user and device if and only if the device id has no colon |
| ActivityProofs.EntryReturnedExactly | backend/handler/activity_handler.py:209-237 | at every reachable time a live entry is returned for its ROM if and only if its device id has no colon |
| ActivityProofs.ReturnedIsLive | backend/handler/activity_handler.py:209-237 | everything returned is stored and unexpired |
| ActivityProofs.ReturnedExactly | backend/handler/activity_handler.py:209-237 | at every reachable time a live entry is returned for any ROM if and only if its device id has no colon and its member is in that ROM's index |
| ActivityProofs.StepKeepsOwnOnlyExactly | backend/handler/activity_handler.py:146-156 | while every ROM is given only its own entries, a step keeps that if and only if it is not the beat of a device another ROM's index still lists |
| ActivityProofs.OnlyOwnEntriesExactly | backend/handler/activity_handler.py:209-237 | over any run, every ROM is given only its own entries throughout if and only if no device beats for one ROM while another lists it |
| ActivityProofs.MovedEntryStillListed | backend/handler/activity_handler.py:146-156 | from any state, an entry that moved to another ROM is returned for both for as long as it lives without another beat |
| ActivityProofs.MovedEntryListedExactly | backend/handler/activity_handler.py:146-156 | over any run in which a device stays live and plays other ROMs, one whose index lists it is given its entry if and only if somebody renews that index each time before it runs out |
| ActivityProofs.QuietRomIsGivenNobody | backend/handler/activity_handler.py:209-237 | after 120 seconds in which nobody beats for a ROM, nobody is returned for it |
| ActivityProofs.StoppedIsNotReturned | backend/handler/activity_handler.py:158-178 | after a stop, in every run and until the device beats again, it is live for nobody and returned for no ROM |
| ActivityProofs.BeatLasts | backend/handler/activity_handler.py:146-156 | an entry lives for exactly 90 seconds after its beat and its member is listed for exactly 120 |
| ActivityProofs.BeatKeepsOthers | backend/handler/activity_handler.py:146-156 | a beat changes no other entry and unlists nobody |
| ActivityProofs.ReadMeans | backend/handler/activity_handler.py:209-237 | reading a ROM drops from its index exactly the members that lead nowhere, and changes neither the index's lifetime nor anything else |
| Counterexamples.StreamedGameIsNotListed | backend/handler/activity_handler.py:216-222 | a game streamed from a container at an address is returned for nobody |
| Counterexamples.PlayerIsListedTwice | backend/handler/activity_handler.py:146-156 | a player who goes on to another game is returned for both |
| NameSort.Rom.SetName | backend/models/rom.py:868-879 | the validator as it runs, with the inner assignment seeing the old name |
| NameSortProofs.NaturalOrder | backend/models/rom.py:87-92 | titles that agree up to a number of at most 12 digits are keyed in the order of that number whatever follows, unless the padded number is cut |
| NameSortProofs.ArticleIsDropped | backend/models/rom.py:60-92 | a leading article, with the white space after it, does not count |
| NameSortProofs.KeyIsCut | backend/models/rom.py:87-92 | a key is the padded name, cut at 500 characters |
| NameSortProofs.KeySettles | backend/models/rom.py:87-92 | the key of a key is itself if and only if it starts with no article, ends in no space and no run was cut short |
| NameSortProofs.RenameKeepsSyncExactly | backend/models/rom.py:868-879 | naming a row that is synced, or has no key yet, leaves it synced if and only if the new key settles or, when it is blank, the old one was blank |
| NameSortProofs.LostSyncStays | backend/models/rom.py:874-877 | a row that has lost sync ignores later names until one matches its key |
| NameSortProofs.TwoArticlesLoseSync | backend/models/rom.py:868-879 | "The A Team" is stored under "team" |
| PackageNames.Candidates | backend/endpoints/feeds.py:593-606 | the list is never empty and ends in the name that carries the file's id |
| PackageNames.NameCandidates | backend/endpoints/feeds.py:593-606 | the appends build that list |
| PackageNames.NamesDiffer | backend/endpoints/feeds.py:609-626 | two packages of a ROM are never given the same name |
| PackageNames.OnlyPackageTakesTheRomsName | backend/endpoints/feeds.py:609-617 | a ROM's only package is called like the ROM |
| PackageNames.FirstFreeNameIsTaken | backend/endpoints/feeds.py:618-626 | otherwise each takes the first of its candidates that nobody else has and that it has once |
| PackageNames.NextBestName | backend/endpoints/feeds.py:593-626 | a package of a known kind is called by the kind, or if that is contested by its stem, then by both, and last by its stem and id |
| PackageNames.KindIsNamed | backend/endpoints/feeds.py:580-601 | the word for each kind, and none for the others |
| PackageNames.NumberedDiffer | backend/endpoints/feeds.py:604-605 | last resorts of different files differ whatever their stems |
| PackageNames.NameExists | backend/endpoints/feeds.py:618-626 | a file whose last resort no other candidate spells out always gets a name |
| PackageNames.NamelessExactly | backend/endpoints/feeds.py:618-626 | a package is left without a name if and only if another candidate spells out its last resort and each of its other candidates is another package's too, or its own twice |
| PackageNames.NamesRunOut | backend/endpoints/feeds.py:618-626 | three packages of which one gets no name |

## Left out

- Screenshots, response schemas, permissions, visibility checks, session counters and `last_seen`: no part in the protocols.
- One save upload, one claim and one ingest are atomic; only promotions and the container pool interleave.
- Hashes are injective, so equal digests mean equal content. One digest stands for two: an upload hashes a zip by its members, while the watcher and the push-pull task hash the bytes of the file, so the digest a zip has after they delivered it is not the one an upload of it would compute, and its duplicates go unnoticed. That difference is not part of this model, and neither is a digest that could not be computed, for which an upload looks for no duplicate.
- Queries that take one row without an order (`get_save_by_filename`, `get_save_by_path`) return the row with the least id.
- The datetime tag of an upload is part of the request, so two uploads in one second may carry the same name.
- Every database write of a save row gets the next tick of one clock; rows written in the same second are not modelled.
- SaveServer.Server.PushMissing: one platform at a time; the rows of a platform are given as a list in query order.
- SaveSync.ClampLimit: the upper limit of retention is its default of 100, where the program reads it from its environment.
- Moving conflicting files aside and the incoming and outgoing folders of the watcher.
- Filesystem operations that raise have no effect; a move, a directory creation or a removal does not stop half way. Symlinks and path validation are not part of this model.
- Promotion.Library.PromoteSingleFileToFolder: the name of the folder without extension is stored with the ROM, and the stem of the folder's own name is a parameter.
- PromotionRaces.RaceKeepsTheBytesExactly: for names with an extension; without one a harmful turn can be made good by a later one, and the result is the one about every moment.
- Each filesystem operation of a racing worker is one step: the look for missing parents inside a move and the choice of what to put back are not interleaved with other workers.
- Containers without whole-card sync, per-file save hydration, resume states and webstation archives.
- MemoryCards.Host.ClaimSession: resolving the requested card and the race for the container are before it, and the launch is an outcome.
- StreamingClaim.Redis.Others: the other requests of the pool, of which only the contract (any run without a step of this claim) is relied on.
- What a teardown does to its container is not modelled, only how long it works; a marker is refreshed by events of its own, so the ceiling on refreshing it is a run in which they stop.
- The streaming pool itself is a state machine over values, in which time does not run past the end of a bounded wait: that the wait is cut off on time is the event loop's doing; corrupt session records, retries of contended writes, termination notices and the force-release of every container are not part of it.
- Layout text is ASCII, and so are titles; the Unicode classes of digits, spaces and letters are not part of this model.
- Section names of the configuration file are constructors of their own, and the other keys are text or integers, of which the text is preferred where both spell a name; parse errors of the file, its creation and its permissions are a single flag.
- ConfigStore.ConfigManager.GetConfig: of two keys that lowercase alike the first in order wins, since the order of keys in the file is not modelled there; `Templates.StructureConfig.Validate` models that order.
- The lookups of a scan are outcomes: that they ran, that they raised, what they answered; the rules for which lookups run, what update, unmatched and hash scans keep of the name, the summary and the manual after the merge, the Hasheous id a rehash drops, and the PICO-8 cover are not part of this model.
- Times are whole seconds; the database's own precision and time zones are not modelled.
- Feeds other than the package names, search, collections, statistics and the pairing of devices.
