# Verified model of eight ChromeOS and Chromium components

This project models, in Dafny, eight independent components of a Chromium/ChromeOS source tree, and proves properties of each:

- **heapprofd client** (`HeapprofdClient`, `heapprofd_client.dfy`). This is the Perfetto heap-profiling client that is loaded into a profiled process. Its handshake opens `/proc/self/maps` and `/proc/self/mem`, with the process made dumpable for the duration when it was not. It then receives the client configuration and the shared-memory descriptor. Each allocation becomes a malloc record carrying a sequence number. Frees are batched and written as one free record when the batch is full. Liveness and wake-ups go through one-byte messages on a non-blocking control socket.
- **Update-payload paths** (`GsPaths`, `gspaths.dfy`). These are Google Storage URIs and file names for builds, images and update payloads. The module covers the `Build`, `Image` and `Payload` records with their defaults, the URI and name builders (build, payloads, signing and flag URIs; image, unsigned-archive and DLC-image names and URIs; payload and DLC-payload names and URIs), the payload-URI parser (two regular expressions), and the version ordering.
- **Payload generation** (`PaygenPayloadLib`, `paygen_payload.dfy`). It covers the work files and partition layout of one payload, the choice of signer, partition extraction, the checks on the signer's results, and the metadata-signature and JSON description outputs.
- **Assistant power manager provider** (`PowerManagerProvider`, `power_manager_provider.dfy`). Wake alarms are keyed by increasing ids and run on the main thread. A reference-counted wake lock is bound lazily and requested and cancelled only on the 0↔1 transitions.
- **Dark-resume controller** (`DarkResumeController`, `dark_resume_controller.dfy`). This state machine holds a suspend-readiness callback during a dark resume. It runs the callback exactly once, either when the wake lock is released or when the hard timeout expires. It has four phases: idle, waiting for the check timer, observing the wake lock, and observing while a second dark suspend waits for the check timer. A second dark suspend that arrives while the wake lock is observed replaces the pending callback, so the first callback is dropped without running.
- **Report section** (`ReportSection`, `ReportRows`, `report_section.dfy` and `report_rows.dfy`). These are the dashboard's report-section reducers: restoring state, requesting and receiving reports, right-aligning label parts and spanning runs of equal labels, reading the query string, and writing the route parameters.
- **Scalar span** (`ScalarSpan`, `scalar_span.dfy`). It classes a delta value as an improvement or a regression.
- **Local binhosts** (`LocalBinhosts`, `local_binhosts.dfy`). This generator builds the `LOCAL_BINHOST` line from the boards whose compatibility summary matches the target's.

`Wrappers` holds `Option` and `Result`. `Strings` holds the string operations the sources borrow from Python and JavaScript: split, join, `os.path.join`, `str.replace`, `sorted` on a set of strings, and decimal formatting.

Where the source updates objects in place, the model is a class whose methods state the whole new state. These classes are the heapprofd client, the process and socket of its handshake, the power manager provider, the dark-resume controller, the payload generator and the board set. The label-span marking works in place on a two-dimensional array, as the source's nested loops do. Pure code is modelled as functions with lemmas.

Effects outside the component become parameters of the operation that meets them:
- the ring buffer's accept or refuse;
- socket send and receive results;
- whether the timed lock was obtained;
- thread stack bases;
- whether a timer started;
- the compatibility summary of a board;
- the signer's answers.

These are explained under "Left out".

Where the written description of the system and the code disagree, the model follows the code:
- A failed flush in `RecordFree` (client.cc:290-295) keeps the full batch instead of clearing it.
- The alarm erase in `OnStartTimerCallback` happens only in builds with DCHECKs on.

Both are reported under "Findings".

## Model

| member | source | states |
|---|---|---|
| HeapprofdClient.SendControlSocketByte | src/third_party/perfetto/src/profiling/memory/client.cc:325-333 | Sending the wake byte fails only on a send error other than "would block": a transfer or a would-block error counts as success |
| HeapprofdClient.IsConnected | src/third_party/perfetto/src/profiling/memory/client.cc:314-323 | Connected exactly when the receive returned data or failed with "would block"; a zero-byte receive (orderly shutdown) means disconnected |
| HeapprofdClient.NonBlockingReceive | src/third_party/perfetto/src/profiling/memory/client.cc:317 | A one-byte non-blocking receive yields one byte when data is unread, EAGAIN when the open peer is silent, and 0 when the peer has closed |
| HeapprofdClient.IsConnectedMeansPeerAlive | src/third_party/perfetto/src/profiling/memory/client.cc:314-323 | The liveness check is true exactly when the peer's end is open or it has unread data |
| HeapprofdClient.ConnectedSocketPairScenarios | src/third_party/perfetto/src/profiling/memory/client.cc:314-323 | An open, silent peer is reported connected; a closed one is not |
| HeapprofdClient.StackBaseFor | src/third_party/perfetto/src/profiling/memory/client.cc:224-233 | On the main thread a cached base is reused and an unset cache takes the thread's stack base; other threads always ask for their own |
| HeapprofdClient.Client.GetStackBase | src/third_party/perfetto/src/profiling/memory/client.cc:224-233 | Returns the base chosen as above, and caches the main thread's base the first time it is computed |
| HeapprofdClient.Client.NextSequenceNumber | src/third_party/perfetto/src/profiling/memory/client.cc:267-268 | The number handed out is one more than the counter, which now equals it; every number already written or pending is below it |
| HeapprofdClient.Client.WrittenBelowCounter | src/third_party/perfetto/src/profiling/memory/client.cc:284-300 | Every sequence number in the ring or the pending batch is between 1 and the counter |
| HeapprofdClient.Client.RecordMalloc | src/third_party/perfetto/src/profiling/memory/client.cc:247-281 | A stack base below the frame address fails without using a number. Otherwise one number is used, the ring gains a malloc record carrying it and the stack between the frame and the base (only when the ring accepts it), and success means written and woken. No number is ever written twice |
| HeapprofdClient.Client.WriteMallocRecord | src/third_party/perfetto/src/profiling/memory/client.cc:260-280 | The header carries the next number, the sizes, the address and the stack pointer. The record goes to the ring only if accepted, and the result is "accepted and the wake byte was sent" |
| HeapprofdClient.Client.Append | src/third_party/perfetto/src/profiling/memory/client.cc:276 | The ring gains exactly the record written, and the written numbers gain its numbers |
| HeapprofdClient.Client.AppendFresh | src/third_party/perfetto/src/profiling/memory/client.cc:267-276 | Appending a record whose number was just handed out keeps all written numbers distinct |
| HeapprofdClient.AppendFreshNumber | src/third_party/perfetto/src/profiling/memory/client.cc:284-300 | Appending an entry adds its number to the batch's numbers; a number above all others keeps them distinct |
| HeapprofdClient.InsertFresh | src/third_party/perfetto/src/profiling/memory/client.cc:284-300 | A number not yet present can be inserted anywhere without making two equal |
| HeapprofdClient.Client.FlushFreesLocked | src/third_party/perfetto/src/profiling/memory/client.cc:303-312 | The whole batch is written as one free record when the ring accepts it; the result is "accepted and woken"; the batch itself is not touched |
| HeapprofdClient.Client.RecordFree | src/third_party/perfetto/src/profiling/memory/client.cc:283-301 | As written. The number is taken before the lock, so a missed lock fails but still uses it. A batch with room gains the entry. A full batch is flushed first; a failed ring write keeps it; a failed wake byte after the write also keeps it and returns false; a successful flush restarts the batch with the new entry |
| HeapprofdClient.Client.RecordFreeClearingFlushed | src/third_party/perfetto/src/profiling/memory/client.cc:283-301 | The corrected free: the same outcomes, except that a batch the ring accepted is always emptied. Distinct written numbers stay distinct |
| HeapprofdClient.Client.FlushAndClear | src/third_party/perfetto/src/profiling/memory/client.cc:290-312 | Writes the batch when the ring accepts it and then empties it, whatever the wake byte does |
| HeapprofdClient.Client.AddToBatch | src/third_party/perfetto/src/profiling/memory/client.cc:296-299 | A batch with room gains the entry (number and address) at its end; the written numbers gain that number and stay distinct when it is fresh |
| HeapprofdClient.ReceiveConfig | src/third_party/perfetto/src/profiling/memory/client.cc:168-189 | A configuration that is received has exactly the configured size and begins with the bytes already in hand; a descriptor already held is kept, because one is asked for only while none has arrived |
| HeapprofdClient.FirstSome | src/third_party/perfetto/src/profiling/memory/client.cc:172-178 | The first descriptor among those the receipts brought: none exactly when no receipt brought one, otherwise one that some receipt brought with no descriptor before it |
| HeapprofdClient.ReceiveConfigCompletes | src/third_party/perfetto/src/profiling/memory/client.cc:168-189 | When the receipts deliver bytes and only the last reaches the configured size, the loop ends with the pieces concatenated and cut at that size, and with the descriptor already held or else the first that arrived |
| HeapprofdClient.ReceiveConfigAbortsAnywhere | src/third_party/perfetto/src/profiling/memory/client.cc:178-187 | Whenever the receipts so far deliver fewer bytes than the configured size and the next one fails, brings no byte, or never comes because the daemon closed the socket, the handshake aborts |
| HeapprofdClient.ConfigReceivedIsPieces | src/third_party/perfetto/src/profiling/memory/client.cc:168-189 | Conversely, every configuration the loop ends with is the delivered pieces concatenated up to the receipt that reached the size, with the descriptor already held or else the first that arrived |
| HeapprofdClient.TwoPieceConfiguration | src/third_party/perfetto/src/profiling/memory/client.cc:168-189 | A configuration arriving in two pieces is reassembled, and the descriptor of the first piece is kept |
| HeapprofdClient.ClosedPeerAbortsHandshake | src/third_party/perfetto/src/profiling/memory/client.cc:180-187 | A peer that closes or fails before the whole configuration arrived aborts the handshake |
| HeapprofdClient.ReceiveHandshakeConfig | src/third_party/perfetto/src/profiling/memory/client.cc:168-189 | The receive loop computes exactly what `ReceiveConfig` specifies |
| HeapprofdClient.Process.Open | src/third_party/perfetto/src/profiling/memory/client.cc:143-152 | Opening a proc file records the attempt and leaves the dumpable flag alone |
| HeapprofdClient.Process.SetDumpableFlag | src/third_party/perfetto/src/profiling/memory/client.cc:77-80 | Sets the dumpable flag and records the change |
| HeapprofdClient.HandshakeRestoresDumpability | src/third_party/perfetto/src/profiling/memory/client.cc:130-154 | Both proc files are opened while the process is dumpable, and the flag ends as it started |
| HeapprofdClient.OpenProcFiles | src/third_party/perfetto/src/profiling/memory/client.cc:130-154 | Succeeds exactly when both files open; the flag is restored and the recorded events are the handshake's |
| HeapprofdClient.CreateAndHandshake | src/third_party/perfetto/src/profiling/memory/client.cc:119-209 | A client is returned exactly when the socket is valid, both proc files open, the descriptors are sent, the whole configuration and a descriptor arrive, and the ring attaches. The socket becomes non-blocking exactly then. The new client is empty and carries the received configuration |
| HeapprofdClient.Client.constructor | src/third_party/perfetto/src/profiling/memory/client.cc:211-222 | A new client holds the configuration and the main-thread stack base, has used no number, and has an empty batch and ring |
| HeapprofdClient.DuplicateFreeRecordScenario | src/third_party/perfetto/src/profiling/memory/client.cc:283-312 | As written: a free into a full batch of one whose wake byte fails, then another free, writes the same batch twice, so a number appears twice among written records |
| HeapprofdClient.BatchWrittenTwice | src/third_party/perfetto/src/profiling/memory/client.cc:303-312 | Two free records of the same batch carry its numbers twice |
| HeapprofdClient.FreeWithFailedWake | src/third_party/perfetto/src/profiling/memory/client.cc:290-292 | As written: a ring write followed by a failed wake byte returns false and keeps the batch |
| HeapprofdClient.FreeRewritingBatch | src/third_party/perfetto/src/profiling/memory/client.cc:290-299 | As written: the next free finds the kept batch full and writes it once more |
| HeapprofdClient.ClearedFreeRecordScenario | src/third_party/perfetto/src/profiling/memory/client.cc:283-312 | Corrected: the same calls write each batch once, and no number is written twice |
| HeapprofdClient.ClearingFreeWithFailedWake | src/third_party/perfetto/src/profiling/memory/client.cc:290-295 | Corrected: a failed wake byte after an accepted write still empties the batch |
| HeapprofdClient.ClearingFreeFlushing | src/third_party/perfetto/src/profiling/memory/client.cc:290-299 | Corrected: a full batch is written and the new free takes its place |
| GsPaths.ClearIfDefault | src/third_party/chromite/lib/paygen/gspaths.py:101-111 | A field equal to its default is stored as absent; either way it reads back as the same value |
| GsPaths.NewImage | src/third_party/chromite/lib/paygen/gspaths.py:101-111 | An image keeps its build, key and URI. Its channel and version are never stored equal to the build's yet read back as given. Its image type defaults to the default type when falsy |
| GsPaths.NewImageIdempotent | src/third_party/chromite/lib/paygen/gspaths.py:101-111 | Rebuilding an image from its own fields gives the same image |
| GsPaths.NewPayload | src/third_party/chromite/lib/paygen/gspaths.py:191-197 | A payload's build is its target image's build, and it is not marked existing |
| GsPaths.BuildUriSplits | src/third_party/chromite/lib/paygen/gspaths.py:221-233 | A build URI is "gs://" followed by bucket, channel, board and version, separated by '/' |
| GsPaths.BuildUriNoTrailingSlash | src/third_party/chromite/lib/paygen/gspaths.py:221-233 | A build URI with a plain version is non-empty and does not end in '/' |
| GsPaths.PayloadsUrisNest | src/third_party/chromite/lib/paygen/gspaths.py:235-283 | The payloads, signing and LOCK-flag URIs are the build URI plus "/payloads", "/payloads/signing" and "/payloads/LOCK_flag" |
| GsPaths.BuildPayloadsFlagUri | src/third_party/chromite/lib/paygen/gspaths.py:266-283 | A flag URI exists exactly for the known flags |
| GsPaths.ImageUriEmptyIsDefault | src/third_party/chromite/lib/paygen/gspaths.py:347-374 | In an image URI an empty image channel or version is replaced by the build's |
| GsPaths.ImageUrisNest | src/third_party/chromite/lib/paygen/gspaths.py:313-400 | The image, unsigned-archive and DLC-image URIs are the build URI, '/', and the file name ("ChromeOS-<type>-<milestone>-<version>-<board>.tar.xz" for the archive, "dlc/*/*/dlc.img" for DLC images); the archive URI ends in ".tar.xz" |
| GsPaths.DLCPayloadUriShape | src/third_party/chromite/lib/paygen/gspaths.py:588-620 | A DLC payload's URI is the payloads URI, then "/dlc/<id>/<package>/", then its signed DLC payload name, so it ends in ".signed" |
| GsPaths.PayloadUriKeepsEmptyChannel | src/third_party/chromite/lib/paygen/gspaths.py:622-663 | In a payload URI only an absent image channel is replaced; an empty one is kept |
| GsPaths.PayloadNameSignedIffKey | src/third_party/chromite/lib/paygen/gspaths.py:523-586 | A payload name ends in ".signed" exactly when a key is given |
| GsPaths.DLCPayloadNameSignedIffSign | src/third_party/chromite/lib/paygen/gspaths.py:465-521 | A DLC payload name ends in ".signed" exactly when signing is requested |
| GsPaths.SignedIffSuffix | src/third_party/chromite/lib/paygen/gspaths.py:553-586 | After ".bin-" and a hex string, the name ends in ".signed" exactly when signed |
| GsPaths.ParseSignedTail | src/third_party/chromite/lib/paygen/gspaths.py:679-682 | The regex tail `(?P<key>[^_]+)\.bin-[0-9A-Fa-f]+\.signed$` captures the key only from a string ending in ".signed" |
| GsPaths.SignedTailRoundTrip | src/third_party/chromite/lib/paygen/gspaths.py:681-682 | The tail of a signed name gives back its key |
| GsPaths.Field | src/third_party/chromite/lib/paygen/gspaths.py:680-681 | A `[^_]+_` group captures a non-empty, underscore-free field and its separator |
| GsPaths.FieldRoundTrip | src/third_party/chromite/lib/paygen/gspaths.py:680-681 | A field followed by '_' is captured back |
| GsPaths.SplitDelta | src/third_party/chromite/lib/paygen/gspaths.py:696-697 | The delta name's first group splits at '-' into a non-empty source version and target version |
| GsPaths.SplitDeltaRoundTrip | src/third_party/chromite/lib/paygen/gspaths.py:696-697 | "<source>-<target>" with no '-' in the target splits back into the two |
| GsPaths.ParseNameRoundTrip | src/third_party/chromite/lib/paygen/gspaths.py:679-699 | The payload-name pattern reads back the first field, channel and key of any name built from underscore-free fields |
| GsPaths.ParseNameOtherMarker | src/third_party/chromite/lib/paygen/gspaths.py:679-699 | A full payload's name never matches the delta pattern, and the other way round |
| GsPaths.ParsedNameIsSigned | src/third_party/chromite/lib/paygen/gspaths.py:679-699 | A name either pattern accepts ends in ".signed" (or in ".signed" and a newline, since `$` matches before one) |
| GsPaths.Groups | src/third_party/chromite/lib/paygen/gspaths.py:679-699 | The named groups of a match: the build's four, the image version and channel, and the key, plus the source version only for a delta |
| GsPaths.MatchPayloadName | src/third_party/chromite/lib/paygen/gspaths.py:679-699 | A name match yields exactly the groups of the full or delta pattern |
| GsPaths.MatchPayloadUri | src/third_party/chromite/lib/paygen/gspaths.py:679-699 | A URI match yields exactly the groups of the full or delta pattern |
| GsPaths.BuildValuesFromUri | src/third_party/chromite/lib/paygen/gspaths.py:51-76 | No match gives none. A match gives its groups with bucket, channel, board and version replaced by one build under "build" |
| GsPaths.MatchedValuesArePayloadValues | src/third_party/chromite/lib/paygen/gspaths.py:51-76 | The dictionary built from a pattern's groups has the build and all the fields a payload needs |
| GsPaths.PayloadFromValues | src/third_party/chromite/lib/paygen/gspaths.py:684-728 | The parsed payload carries the URI and is not marked existing, and it has a source image exactly for a delta |
| GsPaths.ParsePayloadUri | src/third_party/chromite/lib/paygen/gspaths.py:665-731 | A parsed payload carries the URI it came from and is not marked existing |
| GsPaths.ParsedUrisAreSigned | src/third_party/chromite/lib/paygen/gspaths.py:665-731 | Only signed payload URIs are recognised |
| GsPaths.UnsignedPayloadUrisDoNotParse | src/third_party/chromite/lib/paygen/gspaths.py:622-731 | The URI of an unsigned payload, built without a key, is never parsed back |
| GsPaths.HexEndingIsNotSigned | src/third_party/chromite/lib/paygen/gspaths.py:553-586 | A name ending in ".bin-" and a hex string does not end in ".signed" |
| GsPaths.PayloadUriRoundTrip | src/third_party/chromite/lib/paygen/gspaths.py:622-731 | Parsing the URI of a signed payload gives back the payload: the build, the target image's key and effective channel and version, and, for a delta, a source image on the build at the source version. This holds when no field holds a separator the patterns rely on |
| GsPaths.PayloadOfGroups | src/third_party/chromite/lib/paygen/gspaths.py:684-728 | The payload built from the groups of a payload URI has the expected target and source images |
| GsPaths.VersionKey | src/third_party/chromite/lib/paygen/gspaths.py:759-785 | Succeeds exactly for three or four dot-separated integers. The key has five entries: the integers, after [1, 0] for new style or [0] for old style |
| GsPaths.VersionGreater | src/third_party/chromite/lib/paygen/gspaths.py:787-797 | Fails exactly when either version is malformed; otherwise it is the lexicographic order on the keys |
| GsPaths.VersionGreaterStrictOrder | src/third_party/chromite/lib/paygen/gspaths.py:787-797 | On well-formed versions the order is irreflexive, asymmetric and transitive |
| GsPaths.NewStyleAboveOldStyle | src/third_party/chromite/lib/paygen/gspaths.py:759-785 | Every three-part version is greater than every four-part one |
| PaygenPayloadLib.DerivedUrisExtendPayloadUri | src/third_party/chromite/lib/paygen/paygen_payload_lib.py:137-147 | The metadata-signature, log and JSON URIs extend the payload URI, and all four differ |
| PaygenPayloadLib.PartitionFiles | src/third_party/chromite/lib/paygen/paygen_payload_lib.py:118-123 | Each partition file is "<work_dir>/<prefix>_<name>.bin", in name order |
| PaygenPayloadLib.Partitions | src/third_party/chromite/lib/paygen/paygen_payload_lib.py:108-123 | A DLC has one partition, whose target and source files are the images themselves; otherwise the partitions are root then kernel |
| PaygenPayloadLib.PartitionFilesDistinct | src/third_party/chromite/lib/paygen/paygen_payload_lib.py:117-123 | The four root and kernel partition files are pairwise distinct |
| PaygenPayloadLib.PaygenPayload.constructor | src/third_party/chromite/lib/paygen/paygen_payload_lib.py:66-127 | The work files are named under the work directory and the partitions laid out as above. Without signing there is no signer; with signing the signer is chosen as `SignerFor` says |
| PaygenPayloadLib.SignerFor | src/third_party/chromite/lib/paygen/paygen_payload_lib.py:157-181 | The signer is official exactly for a build in the releases bucket, and then no private key is kept. Otherwise the given key is used when truthy, else the testing key |
| PaygenPayloadLib.UnofficialKeyIsNeverEmpty | src/third_party/chromite/lib/paygen/paygen_payload_lib.py:174-181 | An unofficial signer always gets a non-empty key |
| PaygenPayloadLib.PaygenPayload.SetupSigner | src/third_party/chromite/lib/paygen/paygen_payload_lib.py:157-181 | Names the signed payload and its metadata signature file, and picks the signer and key |
| PaygenPayloadLib.PartitionExtractions | src/third_party/chromite/lib/paygen/paygen_payload_lib.py:308-320 | A known partition extracts the target image into its target file, then the source image into its source file when there is a source. Root partitions use the root extractor, kernel ones the kernel extractor |
| PaygenPayloadLib.FirstUnknown | src/third_party/chromite/lib/paygen/paygen_payload_lib.py:308-321 | Every name before it is root or kernel, and it is unknown unless it is the end |
| PaygenPayloadLib.ExtractionFailsIffUnknownName | src/third_party/chromite/lib/paygen/paygen_payload_lib.py:306-321 | Extraction raises exactly when some partition name is neither root nor kernel |
| PaygenPayloadLib.ExtractionOfLayouts | src/third_party/chromite/lib/paygen/paygen_payload_lib.py:108-123 | A DLC layout fails at its single partition before extracting anything. Root and kernel layouts extract both, with the source's only when there is a source image |
| PaygenPayloadLib.PaygenPayload.ExtractPartitions | src/third_party/chromite/lib/paygen/paygen_payload_lib.py:306-321 | The loop makes exactly the calls of the extraction plan and stops at the first invalid name |
| PaygenPayloadLib.FirstSizeMismatch | src/third_party/chromite/lib/paygen/paygen_payload_lib.py:481-486 | No error exactly when every signature has its expected size |
| PaygenPayloadLib.SignaturesError | src/third_party/chromite/lib/paygen/paygen_payload_lib.py:472-486 | No error exactly when a hash has the expected number of signatures, each of the expected size |
| PaygenPayloadLib.FirstHashError | src/third_party/chromite/lib/paygen/paygen_payload_lib.py:472-486 | No error exactly when every hash's signatures are well-sized |
| PaygenPayloadLib.SignHashes | src/third_party/chromite/lib/paygen/paygen_payload_lib.py:441-488 | Succeeds with the signer's answer exactly when there is one, with one entry per hash and all well-sized. No answer and a wrong count each give their own error |
| PaygenPayloadLib.FirstBadHashIsReported | src/third_party/chromite/lib/paygen/paygen_payload_lib.py:472-486 | The error reported is that of the first hash whose signatures are wrong |
| PaygenPayloadLib.BuildArg | src/third_party/chromite/lib/paygen/paygen_payload_lib.py:213-230 | The argument is always "<flag>=..." |
| PaygenPayloadLib.BuildArgValue | src/third_party/chromite/lib/paygen/paygen_payload_lib.py:213-230 | The value is the dictionary's when truthy, else the default's, else "None" |
| PaygenPayloadLib.PaygenPayload.MetadataSignatureWrite | src/third_party/chromite/lib/paygen/paygen_payload_lib.py:535-555 | Writes the single metadata signature to the metadata-signature file; any other count is an error naming the count |
| PaygenPayloadLib.PaygenPayload.Description | src/third_party/chromite/lib/paygen/paygen_payload_lib.py:557-607 | The description fails exactly for more than one metadata signature. Otherwise it has the format version and metadata size, hashes the signed payload when there is a signer, and carries the one signature or none |
| PaygenPayloadLib.PaygenPayload.StoresAgreeOnOneSignature | src/third_party/chromite/lib/paygen/paygen_payload_lib.py:535-601 | Both stores accept exactly one signature and record the same one; more than one fails in both |
| PowerManagerProvider.Acquired | src/chromeos/services/assistant/platform/power_manager_provider_impl.cc:121-149 | One acquire raises the count. Only the first binds (once) and requests the platform lock; later acquires make no platform call |
| PowerManagerProvider.Released | src/chromeos/services/assistant/platform/power_manager_provider_impl.cc:151-169 | A release at zero changes nothing. Otherwise the count drops, and only the last release cancels |
| PowerManagerProvider.AcquirePreservesConsistency | src/chromeos/services/assistant/platform/power_manager_provider_impl.cc:121-149 | After an acquire the platform lock is requested exactly while the count is positive and bound at most once |
| PowerManagerProvider.ReleasePreservesConsistency | src/chromeos/services/assistant/platform/power_manager_provider_impl.cc:151-169 | The same holds after a release |
| PowerManagerProvider.AnyOpsKeepLockConsistent | src/chromeos/services/assistant/platform/power_manager_provider_impl.cc:121-169 | Any sequence of acquires and releases keeps the platform lock consistent with the count |
| PowerManagerProvider.LastLockCall | src/chromeos/services/assistant/platform/power_manager_provider_impl.cc:121-169 | The last request or cancel made is one of the calls made |
| PowerManagerProvider.PowerManagerProviderImpl.constructor | src/chromeos/services/assistant/platform/power_manager_provider_impl.cc:45-52 | A new provider has no alarms, no lock holders and nothing posted |
| PowerManagerProvider.PowerManagerProviderImpl.AddWakeAlarm | src/chromeos/services/assistant/platform/power_manager_provider_impl.cc:56-74 | Returns the next id, which exceeds every id issued before, and posts the alarm's creation |
| PowerManagerProvider.PowerManagerProviderImpl.ExpireWakeAlarmNow | src/chromeos/services/assistant/platform/power_manager_provider_impl.cc:76-82 | Posts the alarm's firing and changes nothing else |
| PowerManagerProvider.PowerManagerProviderImpl.AcquireWakeLock | src/chromeos/services/assistant/platform/power_manager_provider_impl.cc:84-90 | Posts an acquire to the main thread and changes nothing else |
| PowerManagerProvider.PowerManagerProviderImpl.ReleaseWakeLock | src/chromeos/services/assistant/platform/power_manager_provider_impl.cc:92-98 | Posts a release to the main thread and changes nothing else |
| PowerManagerProvider.PowerManagerProviderImpl.AddWakeAlarmOnMainThread | src/chromeos/services/assistant/platform/power_manager_provider_impl.cc:100-119 | Stores the callback and the alarm's timer under its id |
| PowerManagerProvider.PowerManagerProviderImpl.AcquireWakeLockOnMainThread | src/chromeos/services/assistant/platform/power_manager_provider_impl.cc:121-149 | The lock state becomes the acquired state, and the provider stays consistent |
| PowerManagerProvider.PowerManagerProviderImpl.ReleaseWakeLockOnMainThread | src/chromeos/services/assistant/platform/power_manager_provider_impl.cc:151-169 | The lock state becomes the released state, and the provider stays consistent |
| PowerManagerProvider.PowerManagerProviderImpl.OnStartTimerCallback | src/chromeos/services/assistant/platform/power_manager_provider_impl.cc:171-181 | As written: a failed start erases the alarm only in builds with DCHECKs on |
| PowerManagerProvider.PowerManagerProviderImpl.OnStartTimerCallbackErasing | src/chromeos/services/assistant/platform/power_manager_provider_impl.cc:171-181 | Corrected: a failed start erases the alarm in every build |
| PowerManagerProvider.PowerManagerProviderImpl.OnTimerFiredOnMainThread | src/chromeos/services/assistant/platform/power_manager_provider_impl.cc:183-197 | An unknown id does nothing. A known one runs its callback once and is forgotten |
| PowerManagerProvider.PowerManagerProviderImpl.RunNextTask | src/chromeos/services/assistant/platform/power_manager_provider_impl.cc:56-197 | Runs the oldest posted task with the main-thread handler for its kind |
| PowerManagerProvider.ExpireThenFireRunsOnce | src/chromeos/services/assistant/platform/power_manager_provider_impl.cc:183-197 | An alarm expired early, then fired again, runs its callback once |
| PowerManagerProvider.FailedStartKeepsAlarmWithoutDchecks | src/chromeos/services/assistant/platform/power_manager_provider_impl.cc:171-181 | As written, without DCHECKs: an alarm whose timer failed to start stays registered, and expiring it by hand still runs its callback |
| PowerManagerProvider.FailedStartForgetsAlarm | src/chromeos/services/assistant/platform/power_manager_provider_impl.cc:171-181 | Corrected: that alarm is gone and never fires |
| PowerManagerProvider.TwoAlarmsGetIncreasingIds | src/chromeos/services/assistant/platform/power_manager_provider_impl.cc:56-74 | Two alarms get distinct, increasing ids |
| DarkResumeController.DarkResumeController.constructor | src/chromeos/components/power/dark_resume_controller.cc:18-26 | A new controller is cleared and has run no callback |
| DarkResumeController.DarkResumeController.PhaseOf | src/chromeos/components/power/dark_resume_controller.cc:32-132 | Every valid state is in exactly one of four phases, each characterised both ways: idle (cleared, no callback), waiting for the check timer, observing the wake lock, or observing with the check timer running again after a second dark suspend |
| DarkResumeController.DarkResumeController.DarkSuspendImminent | src/chromeos/components/power/dark_resume_controller.cc:32-43 | Takes a fresh readiness callback in place of any pending one and starts the check timer. From idle this enters the waiting phase; while observing, it enters the fourth phase |
| DarkResumeController.DarkResumeController.HandleDarkResumeWakeLockCheckTimeout | src/chromeos/components/power/dark_resume_controller.cc:79-100 | Stops the check timer, observes the wake lock, requests one notification and starts the hard timer |
| DarkResumeController.DarkResumeController.OnWakeLockDeactivated | src/chromeos/components/power/dark_resume_controller.cc:51-65 | Runs the pending callback exactly once and clears all dark-resume state |
| DarkResumeController.DarkResumeController.HandleDarkResumeHardTimeout | src/chromeos/components/power/dark_resume_controller.cc:102-110 | Runs the pending callback exactly once and clears all dark-resume state |
| DarkResumeController.DarkResumeController.SuspendDone | src/chromeos/components/power/dark_resume_controller.cc:45-49 | A full resume clears all dark-resume state without running the callback |
| DarkResumeController.DarkResumeController.RunReadinessCallback | src/chromeos/components/power/dark_resume_controller.cc:102-110 | Moves the pending callback out and runs it; nothing else changes |
| DarkResumeController.DarkResumeController.ClearDarkResumeState | src/chromeos/components/power/dark_resume_controller.cc:112-132 | Drops the callback, unbinds the observer, stops both timers and invalidates the weak pointers |
| DarkResumeController.ClearedIffNoCallback | src/chromeos/components/power/dark_resume_controller.cc:67-77 | The state is cleared exactly when no callback is pending and no weak pointer is live |
| DarkResumeController.DarkResumeCycle | src/chromeos/components/power/dark_resume_controller.cc:32-110 | A whole dark resume ending in a wake-lock release runs one callback and ends cleared |
| DarkResumeController.TwoDarkResumes | src/chromeos/components/power/dark_resume_controller.cc:32-110 | Two dark resumes run two distinct callbacks, one each |
| DarkResumeController.RearmDropsCallback | src/chromeos/components/power/dark_resume_controller.cc:32-65 | A second dark suspend while the wake lock is observed drops the first callback without running it; only the second runs |
| ReportSection.RestoreState | src/third_party/catapult/dashboard/dashboard/spa/report-section.js:142-158 | Without options the state is unchanged. With options, the selection and both revision pairs come from them, the milestone is theirs when nonzero or else the current one, and nothing else changes |
| ReportSection.Kept | src/third_party/catapult/dashboard/dashboard/spa/report-section.js:164-170 | At most the original tables are kept |
| ReportSection.KeptIsFilter | src/third_party/catapult/dashboard/dashboard/spa/report-section.js:164-170 | A table is kept exactly when it is one of the tables and its name is selected |
| ReportSection.AddedTables | src/third_party/catapult/dashboard/dashboard/spa/report-section.js:171-180 | Each selected name without a table gets a placeholder, or the template for the create option, and nothing else is added |
| ReportSection.RequestedTablesMatchSelection | src/third_party/catapult/dashboard/dashboard/spa/report-section.js:160-182 | After a request every selected name has a table, with the template for the create option, and every table is selected |
| ReportSection.RequestReports | src/third_party/catapult/dashboard/dashboard/spa/report-section.js:160-182 | The loops build exactly the requested tables, and the state is marked loading |
| ReportSection.FindIndex | src/third_party/catapult/dashboard/dashboard/spa/report-section.js:192-193 | `findIndex` gives the first table with the name, or -1 when there is none |
| ReportSection.ReceiveOneReplaces | src/third_party/catapult/dashboard/dashboard/spa/report-section.js:186-259 | A received report replaces the first table of its name. With none, the last table is removed, since `splice(-1, 1)` removes it. The new table comes last and cannot be edited |
| ReportSection.ReceiveReports | src/third_party/catapult/dashboard/dashboard/spa/report-section.js:184-262 | The loop receives each report in order, skipping a report whose report, body or rows list is missing; an empty rows list still gives an (empty) table |
| ReportRows.SplitLabel | src/third_party/catapult/dashboard/dashboard/spa/report-section.js:372-379 | The label splits into at least one part per `:`-separated piece; every part starts as first, with row count 1 and the row's link |
| ReportRows.SplitLabelRoundTrip | src/third_party/catapult/dashboard/dashboard/spa/report-section.js:372-379 | Joining the parts' labels with ':' gives back the label |
| ReportRows.PadLabelParts | src/third_party/catapult/dashboard/dashboard/spa/report-section.js:204-213 | A shorter row gets exactly the missing number of blank parts prepended; a long enough row is unchanged |
| ReportSection.SplitRows | src/third_party/catapult/dashboard/dashboard/spa/report-section.js:196-199 | One list of parts per row, each from that row's label |
| ReportSection.MaxParts | src/third_party/catapult/dashboard/dashboard/spa/report-section.js:202-203 | The maximum number of parts, and none for no rows |
| ReportSection.PaddedRows | src/third_party/catapult/dashboard/dashboard/spa/report-section.js:201-213 | Every row is padded to the maximum width |
| ReportSection.PadRows | src/third_party/catapult/dashboard/dashboard/spa/report-section.js:204-213 | The padding loop computes exactly the padded rows |
| ReportSection.PaddedPartsFresh | src/third_party/catapult/dashboard/dashboard/spa/report-section.js:204-213 | Before marking, every padded part is first and has row count 1 |
| ReportRows.RunExtend | src/third_party/catapult/dashboard/dashboard/spa/report-section.js:216-229 | Comparing one more row lengthens a run exactly when that row continues it |
| ReportRows.ExtendColumn | src/third_party/catapult/dashboard/dashboard/spa/report-section.js:216-229 | One pass over a row marks its part as not first when it repeats the label above, and adds one to the row count of its run's head |
| ReportRows.ComputeRowSpans | src/third_party/catapult/dashboard/dashboard/spa/report-section.js:215-229 | After the nested loops every column is marked into runs; the array is updated in place |
| ReportRows.SpannedColumnIsRuns | src/third_party/catapult/dashboard/dashboard/spa/report-section.js:215-229 | A part is first exactly when its label differs from the row above; a first part's row count is the length of its run |
| ReportRows.SpansCoverColumn | src/third_party/catapult/dashboard/dashboard/spa/report-section.js:215-229 | The row counts of a column's first parts add up to the number of rows |
| ReportSection.MarkRuns | src/third_party/catapult/dashboard/dashboard/spa/report-section.js:215-229 | Marking copies the rows into a table and reads back each cell as its column's spanned part |
| ReportSection.LayOutRows | src/third_party/catapult/dashboard/dashboard/spa/report-section.js:196-229 | The laid-out rows and the maximum part count are those the specification functions give |
| ReportSection.LaidOut | src/third_party/catapult/dashboard/dashboard/spa/report-section.js:196-229 | Every laid-out row has the maximum width |
| ReportSection.LaidOutRowsAreAligned | src/third_party/catapult/dashboard/dashboard/spa/report-section.js:201-229 | Each row holds its own label parts right-aligned after blanks, and a part is first exactly when its label differs from the row above |
| ReportSection.LaidOutSpansCoverColumns | src/third_party/catapult/dashboard/dashboard/spa/report-section.js:215-229 | In every column of a received table the first parts' row counts add up to the number of rows |
| ReportSection.JsParseIntRoundTrip | src/third_party/catapult/dashboard/dashboard/spa/report-section.js:299-305 | `parseInt` reads back any integer `String` wrote |
| ReportSection.GetAll | src/third_party/catapult/dashboard/dashboard/spa/report-section.js:301 | `getAll` returns at most one value per parameter |
| ReportSection.GetAllReports | src/third_party/catapult/dashboard/dashboard/spa/report-section.js:333-348 | `getAll("report")` on the report parameters, followed by parameters of other keys, gives back the names in order |
| ReportSection.FirstFitting | src/third_party/catapult/dashboard/dashboard/spa/report-section.js:313-321 | The milestone is the first in `Object.entries` order whose revision is at least the minimum and, unless the maximum is "latest", at most the maximum, both compared as JavaScript numbers; none when no milestone fits |
| ReportSection.FirstFittingIsLeast | src/third_party/catapult/dashboard/dashboard/spa/report-section.js:313-321 | With the milestones in ascending key order, as `Object.entries` lists the integer keys of the milestone table, the inferred milestone is the lowest-numbered one whose revision fits; there is none exactly when no milestone fits |
| ReportSection.FitsNumericRange | src/third_party/catapult/dashboard/dashboard/spa/report-section.js:315-317 | With numeric bounds a milestone fits exactly when its revision lies in the closed range, or is at least the minimum when the maximum is "latest" |
| ReportSection.StringToNumberOfInt | src/third_party/catapult/dashboard/dashboard/spa/report-section.js:306-317 | Text written by `String` for an integer converts back to that number, so numeric text compares as its value |
| ReportSection.NumericTextBoundSwaps | src/third_party/catapult/dashboard/dashboard/spa/report-section.js:299-323 | With `minRev=600` and `maxRev=.5e3`, which `parseInt` leaves as text, the bounds are swapped because 500 < 600, and the first milestone between 500 and 600 is inferred |
| ReportSection.OptionsNeverInverted | src/third_party/catapult/dashboard/dashboard/spa/report-section.js:306-309 | The options never hold a maximum revision below the minimum under JavaScript's `<`: code-unit order between two texts, numeric order otherwise, with NaN never below |
| ReportSection.MilestoneInferredOnlyWhenAbsent | src/third_party/catapult/dashboard/dashboard/spa/report-section.js:299-323 | A nonzero milestone given in the query is kept, and no milestone is then inferred |
| ReportSection.Without | src/third_party/catapult/dashboard/dashboard/spa/report-section.js:341-344 | The selected options other than the create option |
| ReportSection.GetRouteParams | src/third_party/catapult/dashboard/dashboard/spa/report-section.js:333-348 | The default section alone gives no parameters. Otherwise there is one "report" per selected option except the create option, then minRev and maxRev |
| ReportSection.RouteParamsRoundTrip | src/third_party/catapult/dashboard/dashboard/spa/report-section.js:299-348 | Reading back a section's route parameters gives its selection, without the create option, and its revision range. The milestone is inferred from that range |
| ReportSection.RevisionParamOfNumber | src/third_party/catapult/dashboard/dashboard/spa/report-section.js:294-297 | A nonzero revision written by `String` reads back as that number |
| ScalarSpan.GetChangeClasses | src/third_party/catapult/dashboard/dashboard/spa/scalar-span.js:45-57 | The change class is empty exactly without a delta unit with a direction, or for zero. Otherwise it is an improvement exactly when the value moves the better way, and every other value, NaN included, is a regression |
| ScalarSpan.NegationSwaps | src/third_party/catapult/dashboard/dashboard/spa/scalar-span.js:52-56 | Negating a nonzero value swaps improvement and regression |
| ScalarSpan.Format | src/third_party/catapult/dashboard/dashboard/spa/scalar-span.js:39-42 | Nothing without a unit; otherwise the unit's own rendering |
| LocalBinhosts.FindCandidateBoards | src/third_party/chromite/scripts/cros_generate_local_binhosts.py:23-28 | One board per wrapper path |
| LocalBinhosts.StripPrefix | src/third_party/chromite/scripts/cros_generate_local_binhosts.py:28 | Removing the prefix from a wrapper path leaves its file name |
| LocalBinhosts.CandidateBoardsAreSortedNames | src/third_party/chromite/scripts/cros_generate_local_binhosts.py:23-28 | The boards are exactly the wrappers' names, in sorted order |
| LocalBinhosts.CandidateBoardsSorted | src/third_party/chromite/scripts/cros_generate_local_binhosts.py:23-28 | The boards are strictly sorted, so each appears once |
| LocalBinhosts.CandidateBoardsUnderPrefix | src/third_party/chromite/scripts/cros_generate_local_binhosts.py:25-28 | Each sorted wrapper path is the prefix followed by the board at its position |
| LocalBinhosts.AtMostCommonPrefix | src/third_party/chromite/scripts/cros_generate_local_binhosts.py:26 | A common prefix does not change string order, so sorting paths sorts boards |
| LocalBinhosts.GenerateBinhostLine | src/third_party/chromite/scripts/cros_generate_local_binhosts.py:37-43 | The line is `LOCAL_BINHOST='...'` |
| LocalBinhosts.BinhostLineEntries | src/third_party/chromite/scripts/cros_generate_local_binhosts.py:37-43 | The quoted part is the boards' `file://localhost<root>/<board>/packages` entries in sorted order, joined by single spaces |
| LocalBinhosts.NoBoardsEmptyLine | src/third_party/chromite/scripts/cros_generate_local_binhosts.py:37-43 | No compatible boards give `LOCAL_BINHOST=''` |
| LocalBinhosts.BinhostEntryShape | src/third_party/chromite/scripts/cros_generate_local_binhosts.py:41 | Under a plain build root a board's binhost is its `packages` directory, with no space in it |
| LocalBinhosts.BoardSet.Add | src/third_party/chromite/scripts/cros_generate_local_binhosts.py:67 | Adds the board to the set |
| LocalBinhosts.GenerateFromCandidates | src/third_party/chromite/scripts/cros_generate_local_binhosts.py:56-74 | A missing target wrapper is an error naming the target. Otherwise the line lists exactly the other candidates whose summary equals the target's |
| LocalBinhosts.GenerateLocalBinhosts | src/third_party/chromite/scripts/cros_generate_local_binhosts.py:56-74 | The same, over the candidate boards found from the wrapper paths |
| LocalBinhosts.TargetNotCompatibleWithItself | src/third_party/chromite/scripts/cros_generate_local_binhosts.py:62-67 | The target is never among its own binhosts, and every other compatible candidate is |
| Strings.JoinSplit | src/third_party/catapult/dashboard/dashboard/spa/report-section.js:372-379 | Joining the pieces of a split with the separator gives back the string |
| Strings.SplitJoin | src/third_party/chromite/lib/paygen/gspaths.py:679-682 | Splitting a join of separator-free pieces gives back the pieces |
| Strings.SortedSet | src/third_party/chromite/scripts/cros_generate_local_binhosts.py:37-43 | `sorted` of a set holds exactly its elements, strictly ascending |
| Strings.NatToStringRoundTrip | src/third_party/catapult/dashboard/dashboard/spa/report-section.js:345-346 | Reading back the decimal digits of a number gives the number |

## Left out

- Shared ring buffer, sockets, timed mutex, shared memory and `/proc` files (client.cc): their outcomes are parameters. Sending and receiving pass whether the ring accepted the record, the send or receive result with its errno, whether the lock was obtained, whether the file opened, and whether the shared memory attached. The bytes of the wire format, the register dump and the sampler are not modelled.
- `ConnectToHeapprofd` and `FindMainThreadStack` (client.cc): socket creation and the parsing of `/proc/self/maps` are I/O. The main thread's stack base is a parameter of `CreateAndHandshake`.
- `HeapprofdClient.Client.RecordMalloc`: the sequence counter is an unbounded natural. The 64-bit wrap-around of the C++ atomic counter after 2^64 records is not modelled.
- `HeapprofdClient.Client.RecordFree`: the same unbounded counter. The wrap-around of the 64-bit counter is not modelled, nor the 64-bit width of addresses.
- Threads: the model is sequential. The atomic `fetch_add` is one step, and the free-batch lock is a boolean "obtained" parameter. The `PERFETTO_DFATAL` crashes of client.cc are modelled as the release-build early returns that follow them. A debug check on what the caller must ensure is a precondition instead: the blocking socket of the handshake (client.cc:127), a stopped check timer when a dark suspend arrives, and a stopped hard timer when the check timer fires (dark_resume_controller.cc:37 and :95). The dark-resume events themselves require what makes them possible: the check timer or hard timer running, or the observer bound. That also covers the `DCHECK(suspend_readiness_cb_)` checks. The DCHECK in `OnStartTimerCallback` is the exception, because its argument has an effect: there the build kind is a field.
- `HeapprofdClient.ReceiveConfig`: the peer's answers are a finite script of receive results. Past the end of the script the peer counts as closed, and the bytes received are not interpreted as a configuration.
- The power manager's main-thread task runner is a queue of posted tasks, run one at a time by `RunNextTask`. Timers and the boot-time clock (`NativeTimer`, `GetCurrentBootTime`) are left out. Whether a timer started is the parameter of `OnStartTimerCallback`, and expiry is `ExpireWakeAlarmNow` or a posted firing. Callbacks are identified by numbers, and running one appends it to `fired`.
- The dark-resume controller's timers, observer binding and weak pointers are booleans. Callbacks are numbered and running one appends it to `ran`. The mojo wake-lock service and the power manager client are left out.
- `SummarizeCompatibility` and `glob.glob` (cros_generate_local_binhosts.py): the portage query is a function parameter (`summarize`), and the glob result is a set of paths that start with the wrapper prefix. Command-line parsing and printing are left out. The exit on a missing wrapper is the `MissingWrapper` outcome.
- `GsPaths.ParsePayloadUri` matches the two regular expressions segment by segment, which is exact for URIs with five '/' after "gs://". For other URIs the regexes' greedy `.*` groups could absorb a '/', and the model rejects such URIs instead. Python's `$` also matching before a final newline is modelled.
- `GsPaths.ClearIfDefault` models `_clear_if_default` of the attribute-dictionary base class. utils.py is not part of this model. The assumed behaviour is that a field equal to its default is stored as absent.
- `GsPaths.ParseInts` models Python's `int()` on an optional sign and decimal digits. Surrounding whitespace and underscores, which `int()` also accepts, are not modelled.
- The gspaths parsers other than the payload-URI one (`ParseImageUri`, `ParseUnsignedImageUri`, `ParseDLCImageUri`), `ChromeosImageArchive.BuildUri`, the `IsImage`, `IsUnsignedImageArchive` and `IsDLCImage` predicates and the `__str__` methods are not modelled: they lie outside the payload path that payload generation uses. In `PaygenPayloadLib.PaygenPayload.constructor` the `dlc` parameter stands for `_IsDLC()` (paygen_payload_lib.py:107-135): it is present exactly when the target image is a DLC image, and then it carries that image's `dlc_id` and `dlc_package`. `_RandomString` draws random numbers, so the random string is a parameter of the name builders.
- Payload generation (`_GenerateUnsignedPayload`, `_GenerateHashes`, `_PrepareImage`, `_RunGeneratorCmd`, `_SignPayload`, `_VerifyPayload`, `_UploadResults`, `Run`, `CreateAndUploadPayload`, `GenerateUpdatePayload`): these run external tools, download and upload files, or compute hashes. Only their inputs and the checks on the signer's results are modelled. Base64 encoding and the SHA-1, SHA-256 and MD5 sums are left out: the description records which file is hashed and the raw signature. The download cache is left out.
- `ReportSection.transformReportRow` beyond the label split (report-section.js:366-498): unit lookup, statistics and per-revision values use the telemetry library and floating point. Rows keep their label and link only. `newTemplate`, `getSessionState`, `chartHref` and the asynchronous actions (`restoreState`, `loadReports`), which call the server and the store, are left out.
- JavaScript values: revisions are integers or text such as "latest", and milestone numbers are integers. `parseInt` is modelled for decimal text, and for hexadecimal text after a 0x prefix, following optional white space and a sign. When text meets a number in `<` or `>=`, the text is converted by `ToNumber` (`ReportSection.StringToNumber`): decimal literals with fraction and exponent, `Infinity`, and the `0b`, `0o` and `0x` forms, with anything else NaN, which never compares true. The loss of precision of numbers beyond 2^53 and UTF-16 code units are not modelled. In `ScalarSpan.GetChange` a value is a real number or incomparable (NaN, `undefined`). `-0` is treated as `0`, as JavaScript's `===` does.
- ReportSection.FirstFitting: the milestone table is a parameter, a sequence standing for `Object.entries` of the table. JavaScript lists integer keys in ascending order, whatever order the literal is written in. `FirstFitting` itself accepts any sequence and returns its first fitting entry. `FirstFittingIsLeast` states the result for an ascending sequence, which is the order the source iterates in.
- ReportSection.RevLess, ReportSection.Fits: a numeric text's value is the exact decimal value. JavaScript rounds it to the nearest double, so text that differs from an integer revision only beyond double precision (such as "600.0000000000000001"), or that overflows to Infinity (such as "1e400"), can compare differently.
- `ScalarSpan.Format`: the unit's own formatting with fraction digits and prefixes belongs to the telemetry library and is a function parameter.

## Findings

| source | as written | input that shows it | evidently intended | confidence | as-written member | corrected member |
|---|---|---|---|---|---|---|
| src/third_party/perfetto/src/profiling/memory/client.cc:283-312 | When a full batch is flushed, `RecordFree` clears it only when `FlushFreesLocked` returns true. That requires both the ring write and the control-socket byte to succeed. | A batch of size 1 holds one free. The next free finds it full, and the ring accepts the free record, but the wake byte fails with an error other than EAGAIN. The call returns false and keeps the batch. The following free writes the same batch again, so the daemon receives sequence number 1 twice. | Once the ring has accepted the batch it is cleared, so each free record is written once and no sequence number repeats. | not executed | HeapprofdClient.DuplicateFreeRecordScenario | HeapprofdClient.Client.RecordFreeClearingFlushed |
| src/chromeos/services/assistant/platform/power_manager_provider_impl.cc:171-181 | The erase of a failed alarm sits inside `DCHECK_GT(timers_.erase(id), 0)`. In release builds, where DCHECK does not evaluate its argument, the alarm is never erased. | An alarm is added with id 0 and its timer fails to start (`result == false`) in a build with DCHECKs off. The alarm stays in the map, and an `ExpireWakeAlarmNow(0)` still runs its callback. | A failed start forgets the alarm in every build. | not executed | PowerManagerProvider.FailedStartKeepsAlarmWithoutDchecks | PowerManagerProvider.PowerManagerProviderImpl.OnStartTimerCallbackErasing |
