# Verification of the self-contained algorithms of gramsrv

This project models the parts of the repository that carry state, protocols or arithmetic of their own, and proves what their code and documentation promise. Every module stands for one component:

- `DeliveryProtocol.dfy`, `DeliveryApp.dfy`: the OTP webhook's single-flight delivery. The protocol is a step relation over any number of request threads, a clock and a log of provider calls; the class holds the receipt table and its critical sections, each proved to be the protocol's step.
- `BlobReader.dfy`, `BlobMigration.dfy`, `BlobStartup.dfy`: the offline blob migration. A history lists the world (table and both object stores) after every durable effect, so a crash between any two effects is one of its members; the program is a class that extends the history. The source store may answer range reads with anything. The start-up check is the condition the migration has to establish.
- `ChatMessages.dfy`, `ChatSettling.dfy`, `ChatOrder.dfy`: optimistic sending in the web client. Sends, replies and echoes are events in any order; the three handlers are methods of a class over one list per chat. The second file decides which sends leave a settled chat once they are all answered, the third where messages stand and when two of them change places.
- `KeyRotation.dfy`, `KeyDirectory.dfy`: signing-key and code-key rotation. Times are nanoseconds; manifests evolve over runs, some of which crash; the directory's history lists what a reader can find after every write.
- `PythonLiteral.dfy`, `PythonReading.dfy`, `SeedJson.dfy`: the decoder of Python bytes literals, what it accepts and Python's own printer; what Python itself reads in a literal, and where the decoder parts from it; the normalisation of seed JSON.
- `GiftDocuments.dfy`, `GiftCatalog.dfy`, `GiftFetch.dfy`, `GiftContents.dfy`, `GiftDownload.dfy`: the gift catalog, its documents and totals, what a written manifest says entry by entry, and the download of one resource.
- `KeysetPaging.dfy`: the cursor-paged lists of the administration panel.
- `Wallet.dfy`: the demo wallet against its full history.
- `Ordering.dfy`, `Wrappers.dfy`: total orders and sorting; `Option` and `Result`.

`dafny verify dfyconfig.toml` checks everything.

## What the proofs found

Where the code does not keep a promise on all inputs, the exact condition under which it does is proved.

- An object of no bytes is not read back from the destination: the verification reader has nothing to ask for. On a local destination that already holds other bytes under the empty object's key, the row is relabelled to an object of the wrong size. `MovedRowBackedIff` is the exact condition, `EmptyObjectIsNotReadBack` the case.
- The page query asks for keys greater than the empty string, so a row whose `object_key` is empty is never listed; a successful run leaves such rows on the source (`NoSourceRowLeftIff`, `StartsAfterMigrationIff`). The column has no constraint against it.
- The temporary id of an optimistic message is a negated millisecond, which the code's comment calls unique. A chat can fail to settle: all sends answered, and an entry in the `sending` state for good. It settles in every interleaving if and only if no send has two earlier ones of which one shares its millisecond or text with both, while the send itself shares neither with the other (`SettlesIffNeverTorn`); from any three such sends a failing run is built. The bound on pending entries per text has its own exact condition, that no two texts share a millisecond (`BalancedIffOneTextPerMillisecond`), and a schedule that keeps it settles (`BalancedScheduleSettles`).
- A message that is delivered once more can overtake others: an echo takes the place of a pending entry without looking whether its id is listed. Two delivered messages change places if and only if the lower one does this at an entry above the other (`StepKeepsOrderIff`, `OrderKeptIff`); if replies carry what was sent and an id always comes with the same message, they never do (`FaithfulRunKeepsOrder`). `EditedMessageOvertakes` is a run in which they do.
- The limit of 32 signing keys is checked before expired keys are pruned. A good manifest can be rotated if and only if the algorithm is known, the key id unused and fewer than 32 keys listed (`CanRotateIff`); over any run the number of keys grows by one for each completed rotation and shrinks only by the expired keys these meet (`KeyCount`). 29 rotations within one publishing period fill a new manifest, and a full one stays as it is for ever (`DirectoryCanGetStuck`). Code keys are never pruned: with unused ids there is one more after each rotation up to 16 (`CodeKeyCount`), and then nothing rotates any more (`FullCodeManifestIsStuck`). A run loses a secret if and only if some rotation draws an id that another secret has (`NoSecretLostIff`).
- The ten-minute margin less one second is exactly what the accepted durations buy, because `publish_until` is cut to whole seconds (`VerifiableIffWithinMargin`).
- The rating list's cursor is a user id that the query looks up again, so it moves with the user's rank and is lost with the user. A row that keeps its own rank is returned exactly once if and only if as many requests go back before it as jump over it (`RatingRowReturns`); `WrongedIff` says of which rows a request does so, from the cursor's row when it was issued and now. `DeletionRepeatsARow` and `FallingCursorSkipsARow` are the two ways to go wrong.
- The decoder drops a backslash that starts no escape, where Python keeps it; keeps the line end after a backslash, where Python joins the lines; and accepts texts that are no literal in Python, with a quote, a line end or a byte outside ASCII standing for itself, or a backslash at the end. For every text between two quotes, both accept it as the same bytes if and only if each byte that stands for itself is one that a short literal may hold and each backslash starts a complete escape that names a byte (`AgreesWithPythonIff`). Python's printer writes such texts only (`PythonReadsItsRepr`).

## Model

| member | source | states |
|---|---|---|
| `DeliveryProtocol.EnterShared` | cmd/otpwebhook-example/main.go:324-355 | the first critical section only adds a receipt, and only for an id whose earlier receipts have all finished and expired |
| `DeliveryProtocol.StepInv` | cmd/otpwebhook-example/main.go:316-366 | every atomic step of every thread keeps the invariant that ties table, threads, receipts and provider calls together |
| `DeliveryProtocol.RunInv` | cmd/otpwebhook-example/main.go:316-366 | the invariant holds after every interleaving of any number of threads |
| `DeliveryProtocol.SingleFlight` | cmd/otpwebhook-example/main.go:325-365 | two provider calls for one delivery id never overlap, and the later one begins only after the earlier one returned and its receipt expired |
| `DeliveryProtocol.CallersGetTheCallsAnswer` | cmd/otpwebhook-example/main.go:330-365 | every caller that is answered, leader or waiter, gets the answer of the only provider call of its receipt, and that call sent the caller's own body; purging in the meantime changes nothing |
| `DeliveryProtocol.ClosedExactlyOnce` | cmd/otpwebhook-example/main.go:359-364 | a receipt's channel is closed exactly once, when it completes, and not before |
| `DeliveryProtocol.RememberedUntilExpiry` | cmd/otpwebhook-example/README.md:47-49 | a receipt stays in the table until its code expires, whether the provider succeeded or failed |
| `DeliveryProtocol.InFlightBodyOwnsTheTable` | cmd/otpwebhook-example/main.go:330-357 | while a call is in flight its receipt is the one in the table, and the body being sent has that receipt's fingerprint |
| `DeliveryProtocol.ReplayNeverCalls` | cmd/otpwebhook-example/main.go:330-347 | a request whose id has an unexpired or unfinished receipt is never sent: the same body waits for that receipt, another body is a conflict |
| `DeliveryProtocol.LeadsWhenAllExpired` | cmd/otpwebhook-example/main.go:325-354 | a thread becomes leader only if all earlier receipts of its id are finished and expired, and does become one if they were so when it read the clock |
| `DeliveryProtocol.FreshClockDecides` | cmd/otpwebhook-example/main.go:322-357 | with a clock just read, a request is sent if and only if every receipt of its id has an answer, be it a failure, and has expired |
| `DeliveryProtocol.TableAfterEntering` | cmd/otpwebhook-example/main.go:325-354 | whoever enters leaves no receipt in the table that was answered and had expired when it read the clock, keeps every other one, and finds one for its own id |
| `DeliveryProtocol.ReceiptsKeepTheirTerms` | cmd/otpwebhook-example/main.go:349-354 | in every reachable state each receipt has the id, of 1 to 128 characters, the body and the expiry of the request it was issued for, and that expiry was not yet over when the run began |
| `DeliveryProtocol.AnyFreshRequestIsServed` | cmd/otpwebhook-example/main.go:284-364 | from every reachable state, any admissible request whose id has no other than answered and expired receipts gets whatever the provider answers, in six steps of its own, with one call that sends its body |
| `DeliveryProtocol.WaiterCanFinish` | cmd/otpwebhook-example/main.go:338-364 | from every reachable state a waiter can be answered within five steps of itself and its leader: no wake-up is lost |
| `DeliveryApp.Application.Sweep` | cmd/otpwebhook-example/main.go:325-329 | the loop over the map deletes exactly the finished and expired receipts, those of failed deliveries included |
| `DeliveryApp.Application.Enter` | cmd/otpwebhook-example/main.go:324-355 | the imperative sweep, lookup and insertion are the protocol's enter step, on table and receipts |
| `DeliveryApp.Application.Issue` | cmd/otpwebhook-example/main.go:349-354 | a fresh unfinished receipt is inserted under the id and nothing else changes |
| `DeliveryApp.Application.Finish` | cmd/otpwebhook-example/main.go:359-364 | publishing the outcome and closing the channel is the protocol's finish step, also when the receipt is no longer in the table |
| `DeliveryApp.Application.Collect` | cmd/otpwebhook-example/main.go:338-343 | a woken waiter reads the published outcome from the receipt it kept |
| `BlobReader.RangeReader.Read` | cmd/blobmigrate/main.go:200-225 | for any destination size, whatever the backend answers: no more than the expected total is emitted or buffered; a read into a non-empty buffer copies as much as fits of what is buffered or of the next 4 MiB, fails, or reports end exactly when `offset` has reached the total; with an honest backend the bytes emitted are the object's prefix up to `offset` and the buffer its slice from there |
| `BlobReader.RangeReader.Emit` | cmd/blobmigrate/main.go:221-224 | the copy hands out the next bytes of the buffer, at least one, and touches nothing past them |
| `BlobReader.RangeReader.Refill` | cmd/blobmigrate/main.go:209-219 | a range reply is accepted exactly if its total and length are the expected ones |
| `BlobReader.RangeReader.ReadAll` | cmd/blobmigrate/main.go:164-177 | reading to the end with any buffer size either fails or returns exactly the expected number of bytes, whatever the backend answers, and the object itself if it is honest; it does not fail if the backend is honest and reliable and holds the object with that size |
| `BlobReader.BlobBackend.GetRange` | internal/app/files/blobfs.go:178-206 | a successful range read of an honest backend returns the requested slice and the object's size |
| `BlobReader.BlobBackend.PutReader` | internal/app/files/blobfs.go:91-140 | the stream is stored under the key of its content and an existing object is never overwritten; a call on the store may fail, and then the write may or may not have taken effect; if none does and the stream can be read, only a remote store that holds something of another size refuses it |
| `BlobReader.EqualBytes` | cmd/blobmigrate/main.go:227-236 | the accumulated difference is zero exactly for equal byte strings |
| `BlobMigration.CrashAndResume` | cmd/blobmigrate/main.go:88-116 | a run started where another crashed continues its history, so all statements about histories cover any number of interrupted runs |
| `BlobMigration.EveryCrashPointIsSound` | cmd/blobmigrate/main.go:96-113 | at every point of every run, crashed or not, each row labelled with a backend names an object on it with the recorded size and digest, if that was so at the start and the destination's empty object is empty |
| `BlobMigration.MovedRowBackedIff` | cmd/blobmigrate/main.go:158-185 | a relabelled row is backed at the destination if and only if it is not empty or the destination did not hold something else under its key |
| `BlobMigration.HistoryOnlyRelabels` | cmd/blobmigrate/main.go:103-112 | over all runs, rows change only from the source label to the destination label, destination objects only appear, and the source is untouched |
| `BlobMigration.MovedForGood` | cmd/blobmigrate/main.go:107-109 | no row of a moved key carries the source label again |
| `BlobMigration.RelabelledOnce` | cmd/blobmigrate/main.go:107-109 | over all runs together each key is relabelled at most once |
| `BlobMigration.Migration.Describe` | internal/store/postgres/blob_migration.go:50-76 | a group of locations is described exactly if they agree on size and digest and the key is the digest in hexadecimal |
| `BlobMigration.Migration.ListBlobMigrationObjects` | internal/store/postgres/blob_migration.go:22-83 | one page: the next source keys in order, each with the size, digest and row count of all its locations; an inconsistency reported is a real one |
| `BlobMigration.Migration.MigrateObject` | cmd/blobmigrate/main.go:158-185 | success means the destination holds the object with the recorded size and digest, as far as the read-back looks; if no call fails and the source is honest, it succeeds if and only if the source has the object with that size and digest, and so has the destination if it holds anything under the key (of the empty object only a remote destination is asked, and for the size only) |
| `BlobMigration.Migration.ReadBack` | cmd/blobmigrate/main.go:175-183 | the read-back accepts a non-empty object only if the destination holds it with the recorded size and digest, and the empty one always |
| `BlobMigration.Migration.MoveFileBlobBackendForObject` | internal/store/postgres/blob_migration.go:87-111 | either nothing or all locations of the key are relabelled; success means the expected number was, and without a failing call it is certain then |
| `BlobMigration.Migration.MigratePage` | cmd/blobmigrate/main.go:96-114 | a page moves exactly its own keys and advances the cursor to its last key; a dry run changes nothing |
| `BlobMigration.Migration.NextPage` | cmd/blobmigrate/main.go:88-116 | every turn of the page loop has strictly fewer keys ahead of it than the one before, or ends the loop with none ahead |
| `BlobMigration.Migration.Run` | cmd/blobmigrate/main.go:82-126 | the loop terminates; a successful run has relabelled every source row with a non-empty key and counted its distinct keys; a dry run changes neither table nor objects; if no call fails, the source is honest and nobody interrupts, it succeeds if and only if the locations of each such key agree and, outside a dry run, its object can be moved |
| `BlobStartup.RequireConfiguredBlobBackend` | cmd/telesrv/blob_storage.go:22-41 | accepted if and only if every backend with rows is the configured one; otherwise exactly the other backends with rows are reported |
| `BlobStartup.AcceptsIffAllRows` | internal/store/postgres/media.go:294-316 | counted over the grouped table, acceptance means that every row has the configured label |
| `BlobStartup.StartsAfterMigrationIff` | cmd/telesrv/blob_storage.go:22-41 | after a successful run the server starts on the destination if and only if no row named a third backend and no source row had an empty key |
| `BlobStartup.NoSourceRowLeftIff` | internal/store/postgres/blob_migration.go:39-43 | a successful run leaves no source row if and only if none had an empty key |
| `BlobStartup.MixedTableRefused` | cmd/telesrv/blob_storage.go:22-41 | a table with rows of two backends is refused whichever is configured |
| `BlobStartup.EmptyObjectIsNotReadBack` | cmd/blobmigrate/main.go:204-211 | the empty object passes verification while the destination's object under its key has another size |
| `ChatMessages.Client.BeginSend` | web/app.js:1091-1117 | a text of white space only is not sent; any other is appended to its chat's list as a pending outgoing entry, and no other chat changes |
| `ChatMessages.Client.EndSend` | web/app.js:1131-1143 | a successful reply settles one entry by splice or overwrite, or is appended, as the list function says |
| `ChatMessages.Client.HandleNewMessage` | web/app.js:2401-2422 | an echo overwrites the first pending entry of its text, or is appended if its id is new |
| `ChatMessages.Client.DedupForRender` | web/app.js:1784-1792 | the loop with the set of seen ids yields the first message of each id in list order |
| `ChatMessages.RenderedOnce` | web/app.js:1784-1792 | the rendered ids are the ids of the list, each once |
| `ChatMessages.RenderedFirst` | web/app.js:1784-1792 | of several entries with one id the first is shown, as it is |
| `ChatMessages.SpacesAreTheStandards` | web/app.js:1091-1092 | what counts as blank, character by character: the white space and line ends of ECMA-262, sections 12.2 and 12.3 |
| `ChatMessages.StepListInv` | web/app.js:1117-1143 | every event keeps each entry a known send or a delivered message and loses no delivered id |
| `ChatMessages.DeliveredForever` | web/app.js:2401-2430 | a delivered server id never leaves the list, in any interleaving, even when temporary ids collide |
| `ChatMessages.StepBalanced` | web/app.js:1131-1143 | while temporary ids belong to one text each, every event keeps the pending entries of each text within the unanswered sends of that text |
| `ChatMessages.RunBalanced` | web/app.js:1096-1144 | that bound holds after every interleaving of sends, replies and echoes |
| `ChatMessages.BalancedIffOneTextPerMillisecond` | web/app.js:1096-1098 | for sends in clock order the bound holds in all interleavings if and only if no two different texts share a millisecond |
| `ChatMessages.CollisionUnbalances` | web/app.js:1132-1133 | from any such pair a run is built that breaks the bound |
| `ChatSettling.ReplyOwned` | web/app.js:1132-1143 | a reply settles the earliest pending entry whose send shares its temporary id or its text, and no other |
| `ChatSettling.EchoOwned` | web/app.js:2409-2422 | an echo settles the earliest pending entry of its text, and no other |
| `ChatSettling.SettledWhenAllAnswered` | web/app.js:1096-1144 | when no three sends are torn and all are answered, no pending entry is left and the rendered ids are exactly the delivered ids, each once |
| `ChatSettling.TornLeavesEntrySending` | web/app.js:1132-1143 | from any three torn sends of any schedule, a run that answers everything sent and leaves the entry of the last of the three in the list in the `sending` state, with an entry of its temporary id in that state on the screen |
| `ChatSettling.SettlesIffNeverTorn` | web/app.js:1096-1144 | for any schedule of sends, all interleavings settle whenever all that was sent is answered if and only if no three sends are torn |
| `ChatSettling.BalancedScheduleSettles` | web/app.js:1096-1144 | a schedule in clock order whose runs all keep the pending entries of each text within its unanswered sends settles in every interleaving |
| `ChatSettling.CollisionLeavesEntrySending` | web/app.js:1096-1133 | the shortest such failure: three sends, two of them in one millisecond |
| `ChatOrder.EventPlaces` | web/app.js:1131-1143 | an answer settles the first entry that it may and leaves all others as and where they are; a send, and a new message that settles nothing, goes to the end |
| `ChatOrder.StepKeepsOrderIff` | web/app.js:2401-2422 | two delivered messages change places if and only if the lower one is echoed again and takes the place of a pending entry above the other |
| `ChatOrder.OrderKeptIff` | web/app.js:1096-1144 | over any run, one stays above the other if and only if that never happens |
| `ChatOrder.RenderedKeepsOrder` | web/app.js:1784-1792 | the screen shows any two ids in the order of their first entries in the list |
| `ChatOrder.FaithfulRunKeepsOrder` | web/app.js:2401-2422 | if replies carry what was sent and an id always comes with the same message, delivered messages keep their order for good, in the list and on the screen |
| `ChatOrder.EditedMessageOvertakes` | web/app.js:2409-2416 | a run in which a message that is echoed again with another text overtakes |
| `KeyRotation.RotatedIsGood` | cmd/telegramloginkeygen/main.go:186-219 | rotating a good manifest gives a good one: one active key per algorithm, `publish_until` exactly on the inactive keys, distinct ids, at most 32 entries, all key files written |
| `KeyRotation.FirstIsGood` | cmd/telegramloginkeygen/main.go:137-151 | the manifest of `initialize` is good |
| `KeyRotation.ReachableGood` | cmd/telegramloginkeygen/main.go:177-220 | so is every manifest that rotations lead to, crashed rotations included |
| `KeyRotation.GoodLoads` | internal/app/telegramlogin/jose.go:66-86 | the validation of a good manifest cannot fail: the key ring loads |
| `KeyRotation.UnexpiredIsKept` | cmd/telegramloginkeygen/main.go:191-210 | a rotation drops a key only if it has expired |
| `KeyRotation.KeptIsSubsequence` | cmd/telegramloginkeygen/main.go:191-210 | a rotation writes back, in their order, exactly the keys that are active or whose `publish_until` has not come; the active one of the algorithm becomes inactive with the stamp in whole seconds, the others stay as they are |
| `KeyRotation.RotatedKeys` | cmd/telegramloginkeygen/main.go:189-219 | of a good manifest a listed key is dropped if and only if its `publish_until` has come; the new key is the last; every other one is active, still to be published, or the one just retired |
| `KeyRotation.ActiveIsPublished` | cmd/telegramloginkeygen/main.go:189-219 | after any rotations and at any time every algorithm has an active key, and it is published |
| `KeyRotation.TokenVerifiableWhileAlive` | cmd/telegramloginkeygen/main.go:113-120 | over any rotations up to a time, a token signed at most the margin less one second after its key's retirement can be verified with a published key for as long as it lives |
| `KeyRotation.DroppedOnlyAfterTokensExpired` | cmd/telegramloginkeygen/main.go:191-210 | the rotation that drops a key comes after all such tokens have expired |
| `KeyRotation.MarginLessOneSecondIsExact` | cmd/telegramloginkeygen/main.go:113-120 | the stamp outlasts the token for all accepted durations if and only if the delay is at most the margin less one second |
| `KeyRotation.VerifiableIffWithinMargin` | cmd/telegramloginkeygen/main.go:113-120 | in all runs every live token signed a given delay after its key's retirement has its key published, if and only if the delay is at most the margin less one second |
| `KeyRotation.CanRotateIff` | cmd/telegramloginkeygen/main.go:186-218 | a good manifest can be rotated if and only if the algorithm is known, fewer than 32 keys are listed, expired or not, and the key id is unused |
| `KeyRotation.CompletesIff` | cmd/telegramloginkeygen/main.go:105-121 | a rotation of a reachable directory takes place if and only if the lifetime is 1 minute to 24 hours, publishing takes at least that and 10 minutes and at most 90 days, the algorithm is known, the key id unused, fewer than 32 keys listed, and it does not crash |
| `KeyRotation.KeyCount` | cmd/telegramloginkeygen/main.go:186-219 | over any run, the keys there are and the expired keys that were dropped add up to the keys at the start and one for each rotation that completes |
| `KeyRotation.RotationsFillTheManifest` | cmd/telegramloginkeygen/main.go:186-218 | for any times within one publishing period, up to 29, there are rotations of a new directory at these times that all add a key |
| `KeyRotation.FullManifestIsStuck` | cmd/telegramloginkeygen/main.go:186-188 | a manifest of 32 keys is the same after any rotations at any times |
| `KeyRotation.DirectoryCanGetStuck` | cmd/telegramloginkeygen/main.go:186-188 | every new directory is 29 rotations away from one that no rotation changes |
| `KeyRotation.RotatedCodeIsGood` | cmd/telegramloginkeygen/main.go:228-241 | after a code rotation the active id is a member and there are at most 16 keys |
| `KeyRotation.CodeKeysKeptIff` | cmd/telegramloginkeygen/main.go:239-240 | one rotation loses no old code key if and only if the fresh id is not taken by another secret |
| `KeyRotation.CodeRunIsGood` | cmd/telegramloginkeygen/main.go:228-241 | after any run of code rotations, whatever ids and secrets they draw, the active id is a member and there are at most 16 keys |
| `KeyRotation.LastDrawnIsActive` | cmd/telegramloginkeygen/main.go:239-240 | after any run the active id and secret are those drawn last while there was room, and all other keys of that time are as they were |
| `KeyRotation.NoSecretLostIff` | cmd/telegramloginkeygen/main.go:239-240 | over any run of code rotations, everything ever installed is still held if and only if no rotation that was carried out drew an id that had another secret |
| `KeyRotation.CodeKeyCount` | cmd/telegramloginkeygen/main.go:228-241 | with ids that are unused when drawn, n rotations leave n more keys, or 16 if that would be more |
| `KeyRotation.FullCodeManifestIsStuck` | cmd/telegramloginkeygen/main.go:228-229 | a manifest of 16 code keys is the same after any run of rotations |
| `KeyDirectory.RetireKeys` | cmd/telegramloginkeygen/main.go:189-213 | on any manifest the loop succeeds exactly if the stamps of retiring keys parse and one key of the algorithm is active, and then keeps the unexpired keys with that one retired |
| `KeyDirectory.Directory.GenerateSigningKey` | cmd/telegramloginkeygen/main.go:263-274 | a key file is created exclusively before its entry exists; a taken name is refused, and nothing else if writes do not fail |
| `KeyDirectory.Directory.WriteSigningManifest` | cmd/telegramloginkeygen/main.go:307-341 | a manifest is put in place whole or not at all, and only after its key files |
| `KeyDirectory.Directory.Initialize` | cmd/telegramloginkeygen/main.go:128-175 | a begun directory is refused unchanged; every crash point leaves a good directory; success leaves three fresh keys, a code key and the pepper; if writes do not fail, it succeeds if and only if nothing was begun and the key ids are distinct and unused |
| `KeyDirectory.Directory.RotateSigning` | cmd/telegramloginkeygen/main.go:177-220 | success replaces the manifest by the rotated one; failure leaves it, with at most one new key file; every crash point is good; if writes do not fail, it succeeds if and only if durations, algorithm, key count and key id are acceptable |
| `KeyDirectory.Directory.RotateCode` | cmd/telegramloginkeygen/main.go:222-242 | success makes the fresh key active beside all others; failure changes nothing; if writes do not fail, it fails only without a manifest or with a full one |
| `PythonLiteral.PythonBytesLiteralToHex` | cmd/stickerseeddeploy/main.go:256-320 | the decoder terminates on every input within its bounds and returns what the decoding function says |
| `PythonLiteral.TakenForLiteral` | cmd/stickerseeddeploy/main.go:257-263 | exactly the texts of at least three characters that start with `b` and a quote are taken for literals, and refused as unterminated if they do not end with that quote |
| `PythonLiteral.DecodeInner` | cmd/stickerseeddeploy/main.go:266-318 | the index loop decodes the text between the quotes piece by piece |
| `PythonLiteral.ReadPiece` | cmd/stickerseeddeploy/main.go:267-317 | one turn of the loop reads one plain byte or one escape, with the same errors |
| `PythonLiteral.DecodesEverySpelling` | cmd/stickerseeddeploy/main.go:266-318 | any mixture of plain characters, one-character, hexadecimal and octal escapes that spells a byte string decodes to it |
| `PythonLiteral.SpellingIsAccepted` | cmd/stickerseeddeploy/main.go:266-318 | with a backslash after it, such a spelling decodes to its bytes and the backslash |
| `PythonLiteral.AcceptsIffSpelling` | cmd/stickerseeddeploy/main.go:266-318 | the decoder accepts a text if and only if it is such a spelling, or one with a backslash after it |
| `PythonLiteral.DecodeInvertsRepr` | cmd/stickerseeddeploy/main.go:256-320 | decoding what Python prints for any byte string, with either quotes, gives its hexadecimal form (escapes as in section 2.4.1 of the Python 3 Language Reference) |
| `PythonLiteral.HexAt` | cmd/stickerseeddeploy/main.go:319 | that form has two lower-case digits for each byte, high half first |
| `PythonLiteral.HexIsNoLiteral` | cmd/stickerseeddeploy/main.go:257-259 | it never looks like a literal again |
| `PythonLiteral.ReprTokensSpell` | cmd/stickerseeddeploy/main.go:266-318 | what Python prints for a byte string is a valid spelling of these bytes |
| `PythonReading.BackslashesLost` | cmd/stickerseeddeploy/main.go:303-316 | on any text that both accept, the decoder loses exactly one backslash for each that starts no escape and keeps exactly the line ends that Python joins over |
| `PythonReading.AgreesWithPythonIff` | cmd/stickerseeddeploy/main.go:266-318 | for every text between two quotes, Python (by its own tables of digits and escapes) and the decoder accept it as the same bytes if and only if every byte that stands for itself may do so in Python and every backslash starts a complete escape that names a byte |
| `PythonReading.LiteralAgreesIff` | cmd/stickerseeddeploy/main.go:256-320 | the same for whole literals and their hexadecimal form |
| `PythonReading.PlainlyIffUnderstood` | cmd/stickerseeddeploy/main.go:266-318 | a spelling is such a text if and only if none of its plain bytes is the quote, a line end, zero or outside ASCII, and it has no unknown escape and no joined line |
| `PythonReading.PythonReadsItsRepr` | cmd/stickerseeddeploy/main.go:256-320 | Python reads back what it prints for any byte string, in either quotes |
| `SeedJson.NormalizeSeedJson` | cmd/stickerseeddeploy/main.go:213-254 | the rewrite of a tree, arrays element by element, is the normalising function |
| `SeedJson.NormalizeFields` | cmd/stickerseeddeploy/main.go:215-243 | so is that of an object, which renames the reference and then replaces the entries in key order |
| `SeedJson.NormalizedIsNormal` | cmd/stickerseeddeploy/main.go:213-254 | a successful result has no `file_reference_hex` at any depth and no literal under any `bytes` key |
| `SeedJson.EntriesOfObject` | cmd/stickerseeddeploy/main.go:215-243 | what becomes of each entry of an object: the hexadecimal reference replaces one under the plain name, a string under `bytes` is decoded or left alone, all else is normalised, and nothing is lost |
| `SeedJson.NormalizesIff` | cmd/stickerseeddeploy/main.go:213-254 | normalising succeeds if and only if every literal under a `bytes` key decodes, at any depth, but for what a hexadecimal reference replaces |
| `SeedJson.NormalizeIdempotent` | cmd/stickerseeddeploy/main.go:213-254 | normalising twice is normalising once, and the trees left alone are exactly the normal ones |
| `SeedJson.NormalizeRecoversSeed` | cmd/stickerseeddeploy/main.go:213-254 | normalising the file that Python wrote for a seed gives the seed with its byte strings in hexadecimal and its references under their own name, at every depth |
| `GiftDocuments.CollectedIff` | cmd/giftfetch/main.go:366-384 | collecting any references succeeds if and only if each is valid and those to one id agree on size and type; the collection then has every referenced id once, with all its purposes and its first document |
| `GiftFetch.Collector.AddDocument` | cmd/giftfetch/main.go:367-384 | one reference is added or refused with the map unchanged |
| `GiftFetch.Collector.CollectGift` | cmd/giftfetch/main.go:600-678 | a regular gift names its sticker, a unique one its models and patterns in order, and these are what is collected |
| `GiftFetch.Collector.CollectUpgradeAttributes` | cmd/giftfetch/main.go:521-580 | succeeds if and only if every attribute and rarity is known, each kind occurs and the documents are consistent; the set then lists each kind in order and the sorted distinct document ids |
| `GiftCatalog.SetDocumentIDs` | cmd/giftfetch/main.go:575-578 | a set's document ids are the distinct ids of its models and patterns, ascending |
| `GiftCatalog.KindsPartition` | cmd/giftfetch/main.go:569-574 | the three kinds add up to the number of attributes, so the source's count check never fires |
| `GiftFetch.CollectUpgradeableGiftIDs` | cmd/giftfetch/main.go:475-485 | the loop selects the regular gifts with an id and upgrades, in order |
| `GiftFetch.FillSlots` | cmd/giftfetch/main.go:422-454 | whatever each worker ends with and in whatever order, either each slot holds the document of its own id as its worker brought it back, or some worker failed and so does the fetch; undisturbed workers fail only if their document does not arrive |
| `GiftFetch.FetchCatalog` | cmd/giftfetch/main.go:353-462 | the fetch succeeds if and only if the server's answers and what the workers ended with admit a catalog, and the manifest is then determined by these alone, not by the order of finishing; undisturbed, it succeeds if and only if all that is needed arrives |
| `GiftCatalog.ListsExactlyTheNamed` | cmd/giftfetch/main.go:416-462 | a manifest lists a document if and only if a gift or attribute set names it, each once, in ascending order of ids |
| `GiftCatalog.ListedDocuments` | cmd/giftfetch/main.go:680-723 | a listed document has all the purposes it is referenced for and the size its first reference declares |
| `GiftContents.GiftEntry` | cmd/giftfetch/main.go:600-678 | one entry for every gift, under its place: a regular gift names its sticker, a unique one the documents of its models and patterns in order |
| `GiftContents.EachAt` | cmd/giftfetch/main.go:532-560 | a list that is put together thing by thing keeps the order of the things |
| `GiftContents.SetEntries` | cmd/giftfetch/main.go:394-411 | one set for every regular gift with an id and an upgrade, in order, with the models, patterns and backdrops of the server's answer for it |
| `GiftContents.DocumentEntries` | cmd/giftfetch/main.go:680-750 | one entry for every document, with the size, thumbnails and missing thumbnails that its own download brought |
| `GiftContents.PurposesAre` | cmd/giftfetch/main.go:367-384 | a document is listed with exactly the purposes that some gift or some upgradeable gift's answer has for it |
| `GiftContents.TotalsAre` | cmd/giftfetch/main.go:455-462 | bytes are those of all listed files and thumbnails; every other total is the sum over its entries |
| `GiftContents.ManifestIff` | cmd/giftfetch/main.go:353-462 | there is a manifest if and only if there are at most 5000 gifts of known kinds, every upgradeable one has a usable answer of at most 10000 attributes, all references are usable and consistent and to at most 50000 documents, and every download has the declared, acceptable size |
| `GiftCatalog.AttributeTotals` | cmd/giftfetch/main.go:394-411 | model, pattern and backdrop totals add up to the attribute total, and there is a set for each upgradeable gift |
| `GiftFetch.AddUp` | cmd/giftfetch/main.go:455-462 | total bytes and missing thumbnails are the sums over the listed documents |
| `GiftDownload.DownloadPartSize` | cmd/giftfetch/main.go:946-963 | a rung of the ladder that divides 1 MiB; the smallest above a known size below 512 KiB, else 512 KiB; so one request is made for exactly those sizes |
| `GiftDownload.BoundedBuffer.Write` | cmd/giftfetch/main.go:985-995 | takes what there is room for, and fails exactly when that is not everything or the buffer is full |
| `GiftDownload.Stream` | cmd/giftfetch/main.go:985-995 | over any sequence of writes the buffer holds the longest prefix of the stream that its limit allows; all writes succeed exactly if none meets a full buffer and the total fits |
| `GiftDownload.FitsIff` | cmd/giftfetch/main.go:985-995 | for chunks that hold something this depends on the total only |
| `GiftDownload.Download` | cmd/giftfetch/main.go:910-944 | a result of the expected size is the whole file; a file of the expected size is returned whole if and only if it is within the limit |
| `KeysetPaging.CutPage` | cmd/telesrv-admin/readstore.go:94-110 | one page is the first rows beyond the cursor in order, and has_more is set if and only if a further matching row existed |
| `KeysetPaging.ListByIdDescending` | cmd/telesrv-admin/readstore.go:76-111 | the id-keyed lists return such a page, with their limits clamped |
| `KeysetPaging.IdPageHolds` | cmd/telesrv-admin/readstore.go:76-111 | that page holds matching rows below the cursor by falling id, as many as asked for within the limits, and has_more is set if and only if there are others, all further down |
| `KeysetPaging.PresentRowsReturnedOnce` | cmd/telesrv-admin/readstore.go:1637-1664 | a row that is present and matches throughout a walk is returned on exactly one page, whatever is inserted or deleted meanwhile |
| `KeysetPaging.IdRowsReturnedOnce` | cmd/telesrv-admin/readstore.go:2108-2141 | the same for callers that send back the last id they were given, where zero means no cursor |
| `KeysetPaging.NothingReturnedTwice` | cmd/telesrv-admin/readstore.go:83-110 | no row is returned twice in a walk |
| `KeysetPaging.WalkIsBounded` | cmd/telesrv-admin/readstore.go:83-110 | if nothing is inserted beyond the cursor, the number of requests is bounded by the number of rows |
| `KeysetPaging.ListAccountRatings` | cmd/telesrv-admin/readstore.go:1813-1883 | the rating list returns such a page in rank order, from the row its cursor id resolves to |
| `KeysetPaging.RatingPageHolds` | cmd/telesrv-admin/readstore.go:1813-1883 | that page holds matching rows in rank order after the present rank of the cursor's user, 50 if no number is asked for and 200 at most; a minimum above 50 asks for level 50; has_more is set if and only if there are others, all ranking lower |
| `KeysetPaging.FollowRatings` | cmd/telesrv-admin/server.go:2792-2800 | over a fixed table following the handler's cursor terminates and returns every matching row exactly once, by falling level, then falling stars, then rising user id |
| `KeysetPaging.ReturnsUpTo` | cmd/telesrv-admin/readstore.go:1836-1862 | in any walk whose cursors may move, a row that stays put is returned once, plus once for each request that goes back before it, less once for each that jumps over it |
| `KeysetPaging.RatingRowReturns` | cmd/telesrv-admin/readstore.go:1836-1862 | over rating tables that change between requests, a row that keeps its rank is returned exactly once if and only if as many requests go back before it as jump over it |
| `KeysetPaging.WrongedIff` | cmd/telesrv-admin/readstore.go:1836-1860 | a request goes back before a row exactly if the row is not after the cursor's row as issued, and that row is gone or now ranks before it; it jumps over a row exactly if the row was after the cursor's row as issued and is not any more |
| `KeysetPaging.RatingRowsReturnedOnce` | cmd/telesrv-admin/readstore.go:1836-1862 | if every cursor still resolves to the key it was issued for, such a row is returned on exactly one page |
| `KeysetPaging.OneWrongRequest` | cmd/telesrv-admin/readstore.go:1836-1862 | when one request may be wrong about a row, the row is returned twice if it goes back before it, never if it jumps over it, and once otherwise |
| `KeysetPaging.DeletedCursorStartsOver` | cmd/telesrv-admin/readstore.go:1836-1856 | in a walk, the request after its cursor's user was deleted returns the top row and goes back before every row up to the deleted one |
| `KeysetPaging.DeletionRepeatsARow` | cmd/telesrv-admin/readstore.go:1836-1856 | a walk in which a deletion makes a row that never moved be returned twice |
| `KeysetPaging.FallingCursorSkipsARow` | cmd/telesrv-admin/readstore.go:1855-1860 | a walk in which a change of rank makes a row that never moved not be returned at all |
| `Wallet.WalletStore.Transfer` | cmd/walletminiapp/main.go:429-455 | accepted if and only if there is a recipient, the amount is 1 to 500000 cents and within the balance, and the memo has at most 180 bytes; otherwise the first of the four refusals that applies; an accepted transfer is appended to the history, balances and recent lists follow the history, nobody is overdrawn and every transfer in it is within these bounds |
| `Wallet.WalletStore.TakeSnapshot` | cmd/walletminiapp/main.go:422-427 | a snapshot shows 125000 less the sum of the user's accepted transfers, and the newest eight of them |
| `Wallet.TxsAre` | cmd/walletminiapp/main.go:447-453 | a user's transfers are those of the history that the user made |
| `Wallet.IdsFall` | cmd/walletminiapp/main.go:447-453 | a user's transfers, and so the recent ones, have strictly falling ids |
| `Wallet.IdsUnique` | cmd/walletminiapp/main.go:447-448 | no id is given to two users |
| `Wallet.Conserved` | cmd/walletminiapp/main.go:447-449 | over any set of users that includes all senders, balances and transfers add up to what was handed out |

## Left out

- HTTP, WebSocket, Telegram, PostgreSQL, S3 and file-system calls are abstract steps with a stated effect; most may fail, and a failed write may have taken effect.
- Cryptography: a request fingerprint is an injective tag; SHA-256 and hexadecimal printing in the migration are arbitrary functions, of which only is assumed that nothing else shares the empty object's key. Key material, base64 and key parsing are absent.
- DeliveryProtocol: a provider call that panics, and the checks of `validateRequest` on fields other than id and expiry. The clock that `now` reads is taken not to go back.
- BlobMigration: flags, the migration lock, the byte counter that is only printed, and files put into a store by anything else while a run is on. The destination is taken to answer range reads with what it stores; the source is not.
- BlobReader.BlobBackend.PutReader: does not promise that storing an object that a local store already holds succeeds, because making or opening the temporary file may fail; it promises success when no call on the store fails.
- BlobMigration.EveryCrashPointIsSound: requires the destination's empty object to be empty at the start; `MovedRowBackedIff` says exactly when a moved row is backed without it.
- String order is by code unit, as in the C collation; content keys are hexadecimal digits, on which collations agree.
- ChatMessages: failed replies, network exceptions, deletions, edits, refetching, `loadOlderMessages`, media and reply metadata. `loadOlderMessages` keeps a list captured before its request, which the invariant does not cover.
- KeyDirectory: the operation lock, temporary files, kid syntax, and writes that fail half-way without being removed. Key ids are parameters, so their collisions are covered.
- PythonReading.AgreesWithPythonIff: raw and triple-quoted literals are not modelled. An octal escape above 377, which the decoder refuses and Python cuts to a byte, is on the side where they disagree.
- SeedJson: the Go code rewrites maps and slices that may be shared; the model rewrites values, so aliasing is not captured. Which of several malformed literals is reported is not stated.
- GiftCatalog: chats, users, hashes, prices and other fields copied one to one, the order in which errors are reported, the TL artifacts on disk, thumbnails' own downloads, retries and flood waits.
- GiftFetch.FillSlots: after the first failure the group is over; what the other workers still do before they notice is not followed.
- GiftDownload.Download: the streaming library is a list of non-empty chunks that make up the file.
- KeysetPaging: SQL filters are arbitrary predicates; each request reads one consistent table. The timestamp cursors of the account and channel lists are left out, as their precision depends on the database.
- Wallet: trimming of recipient and memo happens before the call; the clock is a parameter.
- Machine integers are modelled as unbounded: overflow of 64-bit counters and sums is not captured.
- The verification state machine, role checks, sessions, flags and the other commands of the repository: wiring, or single branches that would add easy members only.
