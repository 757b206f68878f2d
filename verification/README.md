# Lightweight Cloud Connector: a verified model

Lightweight Cloud Connector (LCC) is a desktop client for Google Cloud. Its Rust core keeps one access
token for the whole process, stores accounts and preferences on disk, and talks to its Flutter front end
over a binary bridge. This project models the parts of that core where correctness is not visible in one
function body, and proves what they keep, in Dafny.

| Modules | What they model |
|---|---|
| `TokenCache`, `TokenCacheProofs`, `TokenCacheSwitch`, `TokenCacheIndex` | `get_access_token`, the account operations, the account index on disk and `set_engine` as one concurrent protocol: task program counters, the lock, the clock, the keyring, the index file and its temp file, the cached entry |
| `Files` | names, files and open handles, for the two stores that write through a temp file and a rename; the history of one file |
| `Accounts`, `AccountRuns` | the same operations run one at a time, as methods of a class, with `log_out_all`, and their place among the protocol's runs |
| `Codec`, `CodecProofs`, `SseStream`, `BridgeTypes`, `FixedInts`, `Utf8` | the bridge's binary format: a schema per type, encoder and decoder as functions, and the two stream objects that carry them out |
| `RangedUpload` | the K-thread ranged upload of the transfer benchmark |
| `EnginePref`, `EnginePrefProtocol`, `EnginePrefOverlap` | the engine preference file: one call at a time, calls that interleave and crash, and what overlapping calls can do to each other |
| `OAuthRedirect` | the loopback listener that waits for the sign-in redirect, and the redirect check |
| `Doctor` | which rows a connectivity check produces, and how the report groups and counts them |
| `LogRetention` | the log clean-up at start |
| `ComputeInstance` | one Compute instance read by the gcloud engine and by the REST client |
| `OperationWait` | the polling loop with bounded backoff |

A method that changes state is tied to a specification function in its `ensures`; the lemmas are about
those functions and about every run of the step relations. Bytes are integers from 0 to 255, a Rust
`String` is a sequence of Unicode scalar values, and integer widths are written out where the code wraps.

## Findings

Properties that the code does not have, each with the input that shows it and with the exact condition
under which it does hold:

- A cached native token always belongs to the active account, except between an account change's write
  and its clear. A run keeps that exactly when it has neither of the two steps that move the active account
  with no clear to come (`TokenCacheProofs.FreshnessHolds`): `list_accounts` publishing a pruned index, and
  a change writing through its handle into a temp file that another change has already renamed onto the
  index. Runs that end by serving the wrong account's token, with every task idle, are
  `TokenCacheSwitch.ListingCanOrphanTheCachedToken` and, for two overlapping switches,
  `TokenCacheSwitch.OverlappingSwitchesCanServeTheOtherAccount`.
- `native/src/token_store.rs:126-129` promises that a truncated index never reaches disk. All account
  changes write it through one temp file, so two that overlap can break the promise
  (`TokenCacheIndex.OverlappingSwitchesCanEraseTheIndex`, `TokenCacheIndex.AShorterTextCanGarbleTheIndex`).
  At every moment of every run the index is unreadable exactly when the file it stands for was opened by a
  change and, since it was last opened, nothing was written to it or the last text written is shorter than
  one before it (`TokenCacheIndex.IndexIsGarbledExactlyWhen`).
- `log_out_all` that fails has removed exactly the accounts before the first failure, except that the
  account it failed on may have lost its credential, and exactly when: `Accounts.LogOutErrTakesAPrefix`,
  `Accounts.LogOutCanHalfRemove`.
- Overlapping preference writes for different slots can lose an update
  (`EnginePrefProtocol.OverlapCanLoseAnUpdate`): a rename undoes another slot's choice exactly when the last
  rename since the call read the file had changed it (`EnginePrefOverlap.LosesAnUpdateExactlyWhen`).
- Overlapping writes for one slot can leave a torn file, by a rename
  (`EnginePrefOverlap.SameSlotCanPublishATornFile`) or by a late write into the visible file
  (`EnginePrefOverlap.AShorterWriteCanTearTheVisibleFile`). The exact condition is the same as for the
  index, at every moment of every run with any crashes (`EnginePrefOverlap.FileIsTornExactlyWhen`).
- `native/src/logging.rs:38-40` promises that daily logs are limited in number and size. The appender names
  them `app.log.<date>`; such a name is a log for the clean-up exactly if its date were `log`
  (`LogRetention.RotatedNamesAreNotLogs`), so none is ever removed
  (`LogRetention.RotatedFilesAreNeverRemoved`).
- The Doctor's gate lets the API rows run behind the row of an engine no longer in use
  (`Doctor.UnsteadyRunMixesEngines`), exactly when the row of another engine passed
  earlier in the run and the row of the one in use did not (`Doctor.GateFailsTheEngineInUseExactlyWhen`,
  `Doctor.GateFailsTheLastEngineExactlyWhen`). The four counts sum to the number of checks exactly while
  none of them reaches 2^32 (`Doctor.CountsAddUp`).
- A value round-trips through the bridge exactly when no string or vector in it reaches 2^31 elements,
  since the length prefix is a wrapping `as i32`: `CodecProofs.RoundTripExactlyWhenSized`.
- With K = 0, and only then, the range computation of the parallel upload divides by zero:
  `RangedUpload.ParallelUpload`.
- The CLI reader accepts records that JSON writes as arrays, and the REST reader sees nothing in them
  (`ComputeInstance.ArrayRecordsDisagree`). For every instance the first accepts,
  `ComputeInstance.EnginesAgreeExactlyWhen` says field by field exactly when the two agree. Between objects
  only a missing machine type and a zone that does not fit the pattern can set them apart
  (`ComputeInstance.ObjectsAgreeExactlyWhen`).

## Model

| member | source | states |
|---|---|---|
| `TokenCacheProofs.ServedTokensAreRightAndAlive` | native/src/gcp_rest_client.rs:180-231 | in every run, whether or not `set_engine` clears: a token handed to a caller that resolved an engine was minted by that engine, was cached for under 300 s, and a native one that lives 330 s or more has not expired |
| `TokenCacheProofs.OneMintAtATime` | native/src/gcp_rest_client.rs:185-187 | two tasks that are both minting are one task, and it holds the lock |
| `TokenCacheProofs.MintsAreSpaced` | native/src/gcp_rest_client.rs:107-124 | two successive successful mints for one engine, with no clear and no other engine's mint between, are 300 s or more apart |
| `TokenCacheProofs.FailedMintLeavesCache` | native/src/gcp_rest_client.rs:194-224 | from taking the lock to failing or being dropped, a call leaves the cache as it was, whatever runs meanwhile |
| `TokenCacheProofs.FreshnessKeptExactlyUnlessMoved` | native/src/accounts.rs:231-312 | every step keeps the cached native token and the native mints in progress tied to the active account, or inside an account change's write-to-clear window, if and only if it is not a prune, nor a write through a handle into the index in place, that moves the active account under such a token |
| `TokenCacheProofs.FreshnessHolds` | native/src/accounts.rs:231-312 | a run of getters, switches, removals, sign-ins, listings and engine changes keeps every state fresh if and only if it has no such step |
| `TokenCacheProofs.InvHolds` | native/src/gcp_rest_client.rs:180-268 | in every reachable state the tasks inside the critical section are exactly the lock holder, the entry is well tagged and minted no later than now, and the cache is what the last mint or clear left |
| `TokenCacheProofs.StepKeepsLock` | native/src/gcp_rest_client.rs:187-187 | every step of every task keeps the lock with exactly one holder, which is whoever is inside the section |
| `TokenCacheProofs.StepKeepsStaleness` | native/src/gcp_rest_client.rs:188-192 | while a task mints for an engine, an entry of that engine has outlived the time limit |
| `TokenCacheProofs.StepKeepsLog` | native/src/gcp_rest_client.rs:194-231 | every step keeps the recorded mints spaced and the cache equal to what the last event left |
| `TokenCacheProofs.PendingSurvives` | native/src/accounts.rs:231-246 | a change that has written and not yet cleared stays so until a clear, and that clear leaves the state consistent |
| `TokenCacheProofs.UnclearedKeepsOrBreaks` | native/src/token_store.rs:144-145 | of the two steps that change the index with no clear to come, each keeps freshness if and only if it does not move the active account under a native token |
| `TokenCacheProofs.IndexStaysPut` | native/src/token_store.rs:144-145 | no step but a publication and a write in place changes what reading the index finds |
| `TokenCacheSwitch.AfterSwitchOnlyTheTargetIsServed` | native/src/accounts.rs:231-246 | after `switch(B)` ran to its clear with no other account change, every native token served from then on is B's, whatever the getters and engine changes did |
| `TokenCacheSwitch.StepKeepsSettled` | native/src/gcp_rest_client.rs:240-268 | with no account change running, every step keeps the account active and serves only its native tokens |
| `TokenCacheSwitch.ListingCanOrphanTheCachedToken` | native/src/token_store.rs:261-264 | a run that ends by serving a token of an account that is no longer active, with every task idle |
| `TokenCacheSwitch.OverlappingSwitchesCanServeTheOtherAccount` | native/src/token_store.rs:130-147 | a run of two overlapping switches and getters, with no listing, that ends by serving one account's token while the other is active and every task idle |
| `TokenCacheIndex.GarblesExactlyWhen` | native/src/token_store.rs:144-145 | a readable index becomes unreadable by a step if and only if the step renames an unreadable temp file over it, or writes a shorter text into it through a handle opened before it was renamed into place |
| `TokenCacheIndex.PublishesGarbledExactlyWhen` | native/src/token_store.rs:130-147 | a rename publishes an unreadable index if and only if, since the temp file was last opened, nothing was written to it or the last text written is shorter than one before it |
| `TokenCacheIndex.IndexIsGarbledExactlyWhen` | native/src/token_store.rs:126-147 | at every moment of every run from a readable index, it is unreadable if and only if a change opened the file it stands for and left it in that state |
| `TokenCacheIndex.IndexIsWholeWithOneWriter` | native/src/token_store.rs:126-147 | the index is always readable while at most one account change at a time is writing it |
| `TokenCacheIndex.OverlappingSwitchesCanEraseTheIndex` | native/src/token_store.rs:134-146 | two overlapping switches can leave an index on disk that lists nobody |
| `TokenCacheIndex.AShorterTextCanGarbleTheIndex` | native/src/token_store.rs:144-145 | two overlapping switches can publish an unreadable index although neither truncates it after the other has written |
| `Accounts.Session.GetAccessToken` | native/src/gcp_rest_client.rs:180-231 | an entry of the caller's engine fetched under 300 s ago is returned and kept; else gcloud's token is the CLI's if it answers and ADC's only if not, and the native one is the active account's exactly when its credential is stored and its refresh answers; a token got is what the cache then holds, and without one nothing changes |
| `Accounts.GetterCaseByCase` | native/src/gcp_rest_client.rs:188-230 | the same as a statement about every store, case by case |
| `Accounts.Session.TokenFromNativeSession` | native/src/gcp_rest_client.rs:240-268 | a token only of the active account, with its credential stored and its refresh answered |
| `Accounts.Session.Switch` | native/src/accounts.rs:231-246 | on Ok the cache is empty and, under the native engine, the account is listed and active; under gcloud only the cache changes; else nothing does |
| `Accounts.Session.Remove` | native/src/accounts.rs:283-312 | credential first, then index, then cache, stopping at the first failure; refused under the gcloud engine; on Ok the account is gone from all three, else index and cache are as before |
| `Accounts.Session.SignIn` | native/src/oauth.rs:555-566 | on Ok the credential is stored, the account listed, active if none was, and the cache empty; else index and cache are as before and a new account leaves no credential behind |
| `Accounts.SignInCaseByCase` | native/src/token_store.rs:200-226 | the new account comes last in the list and never displaces the active one; a failed index write takes a new account's credential back out |
| `Accounts.Session.List` | native/src/token_store.rs:244-265 | the emails are exactly the index's accounts that answer; the index holds them afterwards if the write succeeds and is as before if not; keyring and cache are untouched |
| `Accounts.ListingKeepsWhoAnswers` | native/src/token_store.rs:247-254 | the emails listed are those of the index's accounts that answer, each at its place, in index order and none dropped |
| `Accounts.ListingSparesWhoAnswers` | native/src/token_store.rs:255-264 | an active account that is listed and answers stays active; if every listed account answers the index is unchanged |
| `TokenCache.RetainOneByOne` | native/src/token_store.rs:247-254 | the list is gone through account by account, and each is kept or dropped on its own |
| `Accounts.Session.LogOutAll` | native/src/accounts.rs:321-332 | removes the listed accounts in order, each under the engine then in force, and stops at the first failure; on Ok no account of the old index that answered is in the keyring or active; under the gcloud engine nothing changes |
| `Accounts.Session.Invalidate` | native/src/gcp_rest_client.rs:132-135 | the cache is empty |
| `Accounts.RemovalsTakeAPrefix` | native/src/accounts.rs:321-332 | with the first failing removal at n, the store after logging out is the old one without the n accounts before it, plus the credential of the n-th if that was deleted; Ok exactly if none fails |
| `Accounts.FindFirstFailure` | native/src/accounts.rs:326-329 | the inputs fix the first failing removal: there is exactly one such n |
| `Accounts.LogOutOkEmptiesTheListing` | native/src/accounts.rs:314-332 | on Ok no listed account is stored or active, whatever the revocations said, no other account is touched, and the cache is empty if any was listed |
| `Accounts.LogOutErrTakesAPrefix` | native/src/accounts.rs:152-166 | logging out errs if and only if some removal fails; with the first failure at n the store is the old one without the accounts before n, if and only if that account's credential was not deleted before its index write failed |
| `Accounts.LogOutCanHalfRemove` | native/src/token_store.rs:269-281 | a failing index write leaves an account listed and active without its credential |
| `Accounts.ListingFlagsTheActive` | native/src/accounts.rs:67-78 | the list shown keeps the index's order and flags the active account and no other; some account is flagged exactly when one is active, unless a pruned index could not be written |
| `AccountRuns.SwitchIsARun` | native/src/accounts.rs:231-246 | a switch to a known account is a run of the protocol in which only its task moves, ending in the store the operation leaves |
| `AccountRuns.RemoveIsARun` | native/src/accounts.rs:283-312 | the same for a removal that succeeds |
| `AccountRuns.HalfRemoveIsARun` | native/src/token_store.rs:269-281 | the same for a removal whose index write fails after the credential is deleted and the temp file truncated |
| `AccountRuns.GcloudSwitchIsARun` | native/src/gcloud.rs:776-801 | the same for a switch that gcloud carries out, of which LCC sees the clear |
| `AccountRuns.SignInIsARun` | native/src/oauth.rs:555-566 | a sign-in is a run of the protocol that ends in the store the operation leaves |
| `AccountRuns.FailedSignInIsARun` | native/src/token_store.rs:214-222 | so is one whose index write fails, with its roll-back |
| `AccountRuns.ListIsARun` | native/src/token_store.rs:244-265 | a listing is a run that writes the pruned index if it is another one, and clears nothing |
| `AccountRuns.EngineChangeIsARun` | native/src/api.rs:1075-1084 | a change of engine is a run that drops the entry if the clear is there, and a call begun afterwards resolves the new engine |
| `AccountRuns.HitIsARun` | native/src/gcp_rest_client.rs:188-192 | an undisturbed call that hits leaves the store and hands out the token that the method does |
| `AccountRuns.NativeMintIsARun` | native/src/gcp_rest_client.rs:194-203 | the same for a native mint of whichever account is active, answered within the refresh timeout |
| `AccountRuns.GcloudMintIsARun` | native/src/gcp_rest_client.rs:205-230 | the same for a gcloud mint: the CLI's token if it has one, and only else ADC's |
| `AccountRuns.FailedMintIsARun` | native/src/gcp_rest_client.rs:205-224 | the same for a call that gets no token |
| `AccountRuns.WriteAndClear` | native/src/token_store.rs:130-147 | from the decided index to the clear, the index file ends up holding it, the cache is empty and nothing else moved |
| `Files.LaidIsReadableExactlyWhen` | native/src/token_store.rs:144-144 | texts written over each other from offset 0 read as a value if and only if the last is no shorter than the rest, and then as the last one's |
| `Files.ContentIsWhatWasWritten` | native/src/engine_pref.rs:242-243 | in any history of opens, writes through handles and renames, a file that was opened holds exactly what was written to it since it was last opened, and any other file what it held at first |
| `Files.FileIsReadableExactlyWhen` | native/src/engine_pref.rs:242-243 | a file that was opened is readable if and only if, since then, something was written to it and the last text is no shorter than any before it |
| `Files.TextOverText` | native/src/token_store.rs:144-144 | one text written over another is readable if and only if it is no shorter |
| `Files.SoundIsPossible` | native/src/token_store.rs:100-107 | the contract asked of the JSON library can be met |
| `Files.DoFrames` | native/src/engine_pref.rs:242-243 | a call changes what is read under its own names only, and a write what is read under the name its file has by then |
| `CodecProofs.RoundTripExactlyWhenSized` | native/src/frb_generated.rs:7012-7020 | decoding an encoding followed by any bytes gives the value and those bytes, if and only if every string and vector is shorter than 2^31 |
| `CodecProofs.SelfDelimiting` | native/src/frb_generated.rs:6869-6885 | two streams that begin with encodings of one type are equal only if the values are and the rests are; so encodings are injective and prefix-free |
| `CodecProofs.ReEncodingIsStable` | native/src/frb_generated.rs:4284-4289 | for every accepted input the bytes consumed are as many as the re-encoding has, and re-encoding then decoding gives the same value |
| `CodecProofs.NonCanonicalInputs` | native/src/frb_generated.rs:4826-4836 | every bool byte above 1 reads as the byte 1 does, and every negative length of a vector or string as the length 0, with the rest of the stream untouched |
| `FixedInts.BytesOnTheWire` | native/src/frb_generated.rs:6981-6986 | byte i of a little-endian integer is the digit of weight 256^i of its two's-complement value, and of a big-endian one that of weight 256^(width-1-i) |
| `FixedInts.I32OnTheWire` | native/src/frb_generated.rs:6981-6986 | the four bytes of a length, an index or a tag, spelled out for both byte orders |
| `FixedInts.WidthsInBytes` | native/src/frb_generated.rs:4621-4633 | the widths of the integers, which of them are signed, and that a short buffer is refused |
| `CodecProofs.SimpleShapesOnTheWire` | native/src/frb_generated.rs:7253-7261 | a bool is the byte 1 or 0, an option that byte and its payload |
| `CodecProofs.EnumsOnTheWire` | native/src/frb_generated.rs:6816-6833 | an enum is the i32 of its variant's place |
| `CodecProofs.StringsOnTheWire` | native/src/frb_generated.rs:6703-6708 | a string is the i32 of its length in bytes and its UTF-8 bytes |
| `CodecProofs.VectorsOnTheWire` | native/src/frb_generated.rs:7012-7020 | a vector is the i32 of its length and its items' encodings in order |
| `CodecProofs.RecordsOnTheWire` | native/src/frb_generated.rs:6869-6885 | a record is its fields' encodings in the order of its type |
| `CodecProofs.UnionsOnTheWire` | native/src/frb_generated.rs:7451-7474 | a union is the i32 of its case's place and that case's fields |
| `CodecProofs.UnknownIndicesAreRefused` | native/src/frb_generated.rs:5198-5225 | an enum or union decodes exactly when its index is there and names a variant, and then as that variant |
| `Utf8.BytesOfAChar` | native/src/frb_generated.rs:6706-6706 | how many bytes a character takes, what marks each and that their free bits are its value, as in section 3 of RFC 3629 |
| `Utf8.EncodeInOrder` | native/src/frb_generated.rs:6706-6706 | a string's bytes are its characters' in order |
| `CodecProofs.ValueRoundTrip` | native/src/frb_generated.rs:4433-4463 | every sized value of every schema survives its encoding, with the rest of the stream untouched |
| `CodecProofs.ItemsRoundTrip` | native/src/frb_generated.rs:4648-4658 | the items of a vector decode one after another to the same items |
| `CodecProofs.FieldsRoundTrip` | native/src/frb_generated.rs:5386-5418 | the fields of a record decode, in order, to the same fields |
| `CodecProofs.OptRoundTrip` | native/src/frb_generated.rs:4960-4969 | an option byte and its payload decode to the same option |
| `CodecProofs.UnionRoundTrip` | native/src/frb_generated.rs:5198-5225 | a union's tag selects the fields it was written with |
| `CodecProofs.AcceptedIsAccounted` | native/src/frb_generated.rs:4229-4235 | whatever the decoder accepts has its type, is sized, and accounts for exactly the bytes consumed |
| `FixedInts.IntRoundTrip` | native/src/frb_generated.rs:4621-4633 | an integer in range comes back from its two's-complement bytes, in either byte order |
| `FixedInts.IntReEncodes` | native/src/frb_generated.rs:6981-6986 | every byte string of the right width is the encoding of the integer it reads as |
| `FixedInts.Wrap` | native/src/frb_generated.rs:7015-7015 | `as i32` lands in range, on the number that differs by a multiple of the type's size, and changes nothing that is in range |
| `Utf8.RoundTrip` | native/src/frb_generated.rs:4229-4235 | every string is what its UTF-8 bytes decode to |
| `Utf8.OnlyEncodingsDecode` | native/src/frb_generated.rs:4231-4234 | bytes decode only if they are the encoding of the string they decode to |
| `Utf8.Injective` | native/src/frb_generated.rs:6703-6708 | strings with the same bytes are the same string |
| `SseStream.SseSerializer.Encode` | native/src/frb_generated.rs:6869-6885 | appends to the cursor exactly the encoding of the value |
| `SseStream.SseSerializer.EncodeVec` | native/src/frb_generated.rs:7012-7020 | the loop appends the length prefix and every item's encoding in order |
| `SseStream.SseDeserializer.Decode` | native/src/frb_generated.rs:4433-4463 | returns what the decoding function reads and advances the cursor past exactly that, or fails where it fails |
| `SseStream.SseDeserializer.DecodeItems` | native/src/frb_generated.rs:4650-4657 | the loop pushes the items the decoding function reads, in order |
| `SseStream.SseDeserializer.ReadString` | native/src/frb_generated.rs:4229-4235 | reads a byte vector and accepts it only as UTF-8 |
| `SseStream.SendAndReceive` | native/src/frb_generated.rs:7451-7474 | one object writes and another reads: the value comes back and the reader stops where the writer did, if and only if the value is sized |
| `BridgeTypes.SidesAgree` | native/src/frb_generated.rs:7586-7605 | for each of 20 bridged types the encoder's order of fields and indices is the decoder's, and is well formed |
| `BridgeTypes.EveryBridgedValueRoundTrips` | native/src/frb_generated.rs:5198-5225 | every value of those types round-trips between the separately written encoder and decoder, if and only if it is sized |
| `RangedUpload.RangesPartition` | native/examples/transfer_bench.rs:122-131 | for every size and every K, also K > size, the ranges are consecutive and disjoint, cover every byte, sum to the size and stay within it |
| `RangedUpload.RangesAreEven` | native/examples/transfer_bench.rs:123-130 | every thread but the last gets the same number of bytes, size divided by K, and the last what is left, fewer than K more |
| `RangedUpload.ChunkEnd` | native/examples/transfer_bench.rs:146-148 | a chunk is at most 131072 bytes and ends at a multiple of that from the range's start, or at the range's end |
| `RangedUpload.ParallelUpload` | native/examples/transfer_bench.rs:116-153 | for every K >= 1 and every interleaving of the threads' writes, the remote file equals the data and every byte is written exactly once |
| `RangedUpload.Turn` | native/examples/transfer_bench.rs:144-147 | any thread's next write, of any length up to its chunk's end, keeps what is written right and leaves less to write |
| `RangedUpload.WriteKeepsWritten` | native/examples/transfer_bench.rs:142-147 | a write by one thread disturbs no other thread's bytes and writes each of its own once |
| `RangedUpload.AllWritten` | native/examples/transfer_bench.rs:150-152 | when every thread is at the end of its range, the file is the data |
| `RangedUpload.SequentialUpload` | native/examples/transfer_bench.rs:67-70 | the plain SFTP upload writes exactly the data |
| `EnginePref.PrefStore.SetStored` | native/src/engine_pref.rs:226-246 | Ok exactly when the value is `native` or `gcloud` and no I/O fails; the file then differs in one slot, else it is unchanged |
| `EnginePref.PrefStore.SetEngine` | native/src/api.rs:1075-1084 | Ok exactly for the two engine names and the keys `auth`, `tunnel` and `ssh_forward`, each storing in its own slot; the token cache is dropped exactly after a stored change of the authentication engine; else nothing changes |
| `EnginePref.FileHoldsLastChoice` | native/src/engine_pref.rs:114-129 | after any requests a slot holds its last successful choice, or what it held at first |
| `EnginePref.StoreRefinesMap` | native/src/engine_pref.rs:161-197 | the engine in force is the environment's, else the last valid choice for the slot, else the initial file's, else native, and the source names the level that decided |
| `EnginePref.EngineNamesExactly` | native/src/engine_pref.rs:172-178 | `native` and `gcloud` name their engines and no other value names one |
| `EnginePref.SlotKeysExactly` | native/src/engine_pref.rs:94-129 | the three keys name their slots, each reads its own field, and no other key names one |
| `EnginePref.DecidesByName` | native/src/engine_pref.rs:138-197 | by what the environment and the file literally say: a value that names no engine never decides at either level, and an absent or torn file says nothing |
| `EnginePref.NamesReadBack` | native/src/engine_pref.rs:29-34 | the names written for engines and slots read back as the same engines and slots |
| `EnginePrefProtocol.VisibleFileIsAlwaysWhole` | native/src/engine_pref.rs:226-246 | with at most one call in flight per slot, under every interleaving, failure and crash, the file is the initial one or a whole snapshot, and each slot holds its initial value or one requested for it |
| `EnginePrefProtocol.StepKeepsInv` | native/src/engine_pref.rs:221-246 | every file-system step of every call keeps each call's temp file its own and the visible file whole |
| `EnginePrefProtocol.StepOnTheFile` | native/src/engine_pref.rs:242-243 | with at most one call per slot the visible file changes at renames only, and to exactly what the call built |
| `EnginePrefProtocol.UnoverlappedCallTouchesOnlyItsSlot` | native/src/engine_pref.rs:230-245 | a call no other call overlaps changes its own slot to what was asked, or nothing |
| `EnginePrefProtocol.StoringIsARun` | native/src/engine_pref.rs:226-246 | a call that runs through stores its choice over the file as it was |
| `EnginePrefProtocol.OverlapCanLoseAnUpdate` | native/src/engine_pref.rs:235-245 | two calls for different slots that both succeed can leave only one of the choices |
| `EnginePrefOverlap.LosesAnUpdateExactlyWhen` | native/src/engine_pref.rs:226-246 | with at most one call per slot, a call's rename puts another slot back to what the call read, and changes it if and only if the last rename since that read left something else there |
| `EnginePrefOverlap.RenamePublishesWhatWasRead` | native/src/engine_pref.rs:236-244 | what a call publishes is its choice over the file as it read it |
| `EnginePrefOverlap.TearsExactlyWhen` | native/src/engine_pref.rs:242-243 | a whole file is torn by a step if and only if the step renames a torn temp file over it, or writes a shorter text into it through a handle opened before it was renamed into place |
| `EnginePrefOverlap.PublishesTornExactlyWhen` | native/src/engine_pref.rs:221-246 | a rename publishes a torn file if and only if, since the temp file was last opened, nothing was written to it or the last text written is shorter than one before it |
| `EnginePrefOverlap.FileIsTornExactlyWhen` | native/src/engine_pref.rs:221-246 | at every moment of every run from a whole file, with any crashes, the visible file is torn if and only if a call opened it under its temp name and the calls left it in that state |
| `EnginePrefOverlap.SameSlotCanPublishATornFile` | native/src/engine_pref.rs:221-223 | two calls for one slot share a temp file and can rename a truncated one into place |
| `EnginePrefOverlap.AShorterWriteCanTearTheVisibleFile` | native/src/engine_pref.rs:242-243 | a call can tear the visible file with no rename of its own, by writing a shorter text through a handle whose file has been renamed into place |
| `OAuthRedirect.ConstantTimeEqBytes` | native/src/oauth.rs:94-104 | the OR of the XORs is zero exactly when the byte strings are equal |
| `OAuthRedirect.ConstantTimeEq` | native/src/oauth.rs:94-104 | true exactly for equal strings |
| `OAuthRedirect.ParseRedirectRequest` | native/src/oauth.rs:135-185 | the loop over the query pairs gives the verdict of the specification |
| `OAuthRedirect.SecondWordIsTheSecond` | native/src/oauth.rs:136-139 | the target is the line's second word, whatever white space stands before, between and after |
| `OAuthRedirect.SecondWordMissingExactlyWhen` | native/src/oauth.rs:136-139 | there is none if and only if the line has fewer than two words |
| `OAuthRedirect.FirstLineIsTheFirst` | native/src/oauth.rs:251-255 | the request line is the text up to the first newline, without one carriage return before it |
| `OAuthRedirect.RejectedCaseByCase` | native/src/oauth.rs:135-185 | each rejection with its reason, in the order in which the checks are made |
| `OAuthRedirect.AcceptedExactlyWhen` | native/src/oauth.rs:135-185 | accepted with code c if and only if the path is `/`, no pair is an error, the last state is the expected one, and the last code is c and not empty |
| `OAuthRedirect.ForgedErrorIsAStateProblem` | native/src/oauth.rs:160-173 | an error redirect without the expected state is rejected for its state |
| `OAuthRedirect.RejectedForItsStateEndsTheWaitExactlyWhen` | native/src/oauth.rs:160-170 | a redirect rejected for its state ends the wait with that error if and only if its line contains `code=` or `error=`; else the wait goes on |
| `OAuthRedirect.LastIsLast` | native/src/oauth.rs:150-158 | overwriting in a loop keeps the value of the last pair with the key |
| `OAuthRedirect.Serve` | native/src/oauth.rs:244-276 | what a connection is answered and whether it ends the wait: a stray gets 404, or nothing if it is silent, and never ends it |
| `OAuthRedirect.ConnectionCaseByCase` | native/src/oauth.rs:244-276 | each kind of connection: its answer, and whether the wait ends with it or goes on |
| `OAuthRedirect.AwaitRedirectCode` | native/src/oauth.rs:237-278 | the accept loop ends as the specification says and answers each connection up to then |
| `OAuthRedirect.WaitEndsAtFirstReal` | native/src/oauth.rs:237-278 | the wait ends at the first connection that is not stray with that connection's outcome, and goes on exactly while all are stray |
| `OAuthRedirect.CodeExactlyWhen` | native/src/oauth.rs:220-231 | the code c comes back if and only if the first connection that is not stray is a valid redirect carrying c |
| `Doctor.RunAllChecks` | native/src/doctor.rs:1389-1464 | 13 rows in one fixed order, each with the status its own engine reading and probe give, the API rows asked only behind the gate |
| `Doctor.IdsInOrder` | native/src/doctor.rs:1389-1464 | the 13 ids in their order, spelled out |
| `Doctor.CategoriesInOrder` | native/src/doctor.rs:1389-1464 | six authentication rows, then two each of project, IAP and VM, then one local |
| `Doctor.AuthRowsCaseByCase` | native/src/doctor.rs:103-185 | what each engine reading and probe outcome makes of each of the six authentication rows |
| `Doctor.GateIsTheTwoRows` | native/src/doctor.rs:228-233 | the gate opens exactly when the gcloud-account row or the native-token row passed |
| `Doctor.SteadyRun` | native/src/doctor.rs:103-151 | with one engine in force, the other engine's three rows are skipped, the gate is exactly the row of the engine in use, and the API rows carry their probes' statuses if it passed and Skipped if not |
| `Doctor.GateInARun` | native/src/doctor.rs:228-233 | what the readings and probes must be for each of the two rows to pass, and so for the gate to open |
| `Doctor.GateFailsTheEngineInUseExactlyWhen` | native/src/doctor.rs:1433-1440 | the gate opens although the row of the engine in use did not pass if and only if the other engine's row had passed and this one had not |
| `Doctor.GateFailsTheLastEngineExactlyWhen` | native/src/doctor.rs:1406-1443 | for the engine read last, if and only if gcloud was in force up to the account row, which passed, and native at the token row, which did not |
| `Doctor.AnyRunIsGated` | native/src/doctor.rs:1433-1443 | even if the engine changes meanwhile, an API row that is not skipped stands behind a row that passed under its own engine |
| `Doctor.UnsteadyRunMixesEngines` | native/src/doctor.rs:1406-1408 | a change of engine during the run can let the API rows run although the row of the engine now in use failed |
| `Doctor.IdsAreDistinct` | native/src/doctor.rs:1389-1464 | no two rows of a run share an id |
| `Doctor.GenerateReport` | native/src/doctor.rs:1541-1573 | the rows written are those of each category in turn, under one heading for each category that has any, every row under its own category's heading |
| `Doctor.ReportIsAStablePermutation` | native/src/doctor.rs:1541-1573 | every check is written exactly once, and those of one category in the order they came |
| `Doctor.GroupedKeepsCategory` | native/src/doctor.rs:57-65 | a category's checks come out of the grouping unchanged and in order once its turn has come |
| `Doctor.HeadingsInOrder` | native/src/doctor.rs:57-65 | the five categories in the report's order, and a heading exactly for those that have checks |
| `Doctor.CountsAddUp` | native/src/doctor.rs:1467-1470 | the four `u32` counts sum to the number of checks if and only if none of them wrapped |
| `Doctor.HowManyOccurrences` | native/src/doctor.rs:1467-1470 | a count is the number of checks with that status |
| `LogRetention.LogDir.Cleanup` | native/src/logging.rs:170-225 | the directory afterwards is the old one without what the specification drops and can be removed; an unreadable directory is left alone |
| `LogRetention.SortIsAStableSort` | native/src/logging.rs:187-192 | the sort orders by time, newest first with unknown times in front, loses and adds nothing, and is stable |
| `LogRetention.SurvivorsAreTheNewest` | native/src/logging.rs:194-222 | at most five survive, none oversized, all of them if there are no more than five, and nothing that goes is newer than what stays |
| `LogRetention.KeepsTheNewestFive` | native/src/logging.rs:14-17 | in numbers: at most five stay, none of more than 10485760 bytes, and a log that fits goes only if five stay that are no older |
| `LogRetention.LogsInListingOrder` | native/src/logging.rs:176-184 | the logs are taken in the order in which the directory lists them |
| `LogRetention.SurvivesExactlyWhen` | native/src/logging.rs:176-222 | a file is still there if and only if it was not listed, is no log, cannot be removed, or is a survivor; its contents are untouched |
| `LogRetention.NothingToDoExactlyWhen` | native/src/logging.rs:196-222 | a clean-up changes nothing if and only if there are at most five logs and none is oversized |
| `LogRetention.CleanupIsIdempotent` | native/src/logging.rs:170-225 | a second clean-up changes nothing, in whatever order the directory is listed |
| `LogRetention.SecondRunChangesNothingExactlyWhen` | native/src/logging.rs:205-222 | with files that cannot be removed, a second clean-up changes nothing if and only if every log it could remove is among its survivors |
| `LogRetention.CleanupIsIdempotentWhenTimesDiffer` | native/src/logging.rs:205-222 | that is so, whatever could not be removed, when no two logs have the same time |
| `LogRetention.SurvivesByRank` | native/src/logging.rs:194-222 | when no two logs have the same time, a log that is not oversized survives if and only if fewer than five such are newer |
| `LogRetention.ListingOrderDoesNotMatter` | native/src/logging.rs:187-192 | when no two logs have the same time, the result does not depend on the listing order |
| `LogRetention.LogsEndInLog` | native/src/logging.rs:178-183 | a name is a log if and only if it ends in `.log` and has something before it |
| `LogRetention.RotatedNamesAreNotLogs` | native/src/logging.rs:57-61 | a name the daily appender gives is a log if and only if its date part is `log` |
| `LogRetention.RotatedFilesAreNeverRemoved` | native/src/logging.rs:37-40 | a directory of the appender's own files is left as it is, however many and large |
| `ComputeInstance.EnginesAgreeExactlyWhen` | native/src/gcloud.rs:297-375 | for every instance the gcloud engine can deserialize, objects or arrays: an if-and-only-if for each of the twelve fields and for the whole |
| `ComputeInstance.ObjectsAgreeExactlyWhen` | native/src/gcp_rest_client.rs:832-923 | when every record is written as an object, the two agree on everything but machine type and zone, and wholly if and only if there is a machine type and the zone fits the pattern or is `unknown` |
| `ComputeInstance.ListingsAgreeExactlyWhen` | native/src/gcp_rest_client.rs:826-926 | the same for whole listings, element by element; the gcloud engine lists them if and only if it can deserialize every one |
| `ComputeInstance.IpsAgreeExactlyWhen` | native/src/gcloud.rs:93-104 | the internal addresses agree if and only if the first interface has none or is seen; the external ones if and only if its first configuration with an address is seen, or the first one seen has the same address, or there is none |
| `ComputeInstance.ExternalIpAgreesExactlyWhen` | native/src/gcp_rest_client.rs:718-720 | the same for a list of access configurations, some of them written as arrays |
| `ComputeInstance.DiskGbAgreesExactlyWhen` | native/src/gcloud.rs:319-327 | the sizes agree if and only if the boot disk is written as an object or its size is that of the disk the REST client takes instead |
| `ComputeInstance.WindowsAgreesExactlyWhen` | native/src/gcloud.rs:348-358 | the Windows flags agree if and only if, when some disk has a Windows licence, one that is written as an object has |
| `ComputeInstance.OsLoginAgreesExactlyWhen` | native/src/gcloud.rs:336-345 | the same for the metadata items that switch OS Login on |
| `ComputeInstance.SpecsAgreeExactlyWhen` | native/src/gcp_rest_client.rs:615-685 | CPU and memory agree for every object, with or without a machine type, and for an array if and only if its machine type has none |
| `ComputeInstance.FieldsAreRead` | native/src/gcloud.rs:41-86 | how each record's fields come from an object by name or from an array by place |
| `ComputeInstance.DeserializesExactlyWhen` | native/src/gcloud.rs:41-86 | exactly what the gcloud engine can deserialize: which fields are required, which may be null or absent, and that an array must have exactly the record's fields |
| `ComputeInstance.LastSegmentIsTheLast` | native/src/gcp_rest_client.rs:843-855 | a zone and a machine type are what follows the last slash |
| `ComputeInstance.ParsesDecimals` | native/src/gcloud.rs:327-327 | a size is read back from its decimal digits if it fits 32 bits, with or without a plus sign, and anything else is refused |
| `ComputeInstance.MachineSpecsByParts` | native/src/gcp_rest_client.rs:625-680 | a type of three parts has the CPUs of its third part and the memory of its first two, wrapped at 32 bits |
| `ComputeInstance.MachineSpecsByMoreParts` | native/src/gcp_rest_client.rs:629-635 | what follows a further dash does not matter |
| `ComputeInstance.SmallMachineTypes` | native/src/gcp_rest_client.rs:617-624 | the five types outside the pattern |
| `ComputeInstance.MemoryRates` | native/src/gcp_rest_client.rs:637-677 | the table of megabytes per CPU, and its default |
| `ComputeInstance.TrueInAnyCase` | native/src/gcloud.rs:342-342 | the metadata value is `true` in any ASCII case |
| `ComputeInstance.WordsThatMatter` | native/src/gcp_rest_client.rs:880-905 | the licence word and the two metadata keys that switch the flags |
| `ComputeInstance.RestTextDefaults` | native/src/gcp_rest_client.rs:832-855 | what the REST client reads from an instance that says nothing |
| `ComputeInstance.CliDefaults` | native/src/gcloud.rs:297-375 | what the gcloud engine reads from an instance that says only its name, status and zone |
| `ComputeInstance.ListInstances` | native/src/gcp_rest_client.rs:826-926 | the nested loops push exactly the instances of every zone, in order |
| `ComputeInstance.NoSpecsWithoutAType` | native/src/gcp_rest_client.rs:615-685 | neither placeholder for a missing machine type has CPU or memory |
| `ComputeInstance.ArrayRecordsDisagree` | native/src/gcloud.rs:74-80 | an interface written as an array has an address for the gcloud engine and none for the REST client |
| `ComputeInstance.FirstWhere` | native/src/gcloud.rs:99-102 | the first element that satisfies the test, or none if none does |
| `OperationWait.WaitForZoneOperation` | examples/client_library_poc.rs:375-426 | terminates after at most 14 polls, whatever the server answers and however long requests take, with the outcome of the reply or the limit that decided |
| `OperationWait.AFifteenthPollIsTooLate` | examples/client_library_poc.rs:383-390 | after 14 polls the clock is past the limit |
| `OperationWait.FourteenPollsHappen` | examples/client_library_poc.rs:421-424 | a server that never finishes and answers at once is asked exactly 14 times |
| `OperationWait.EndingIsUnique` | examples/client_library_poc.rs:388-425 | the promise fixes both the outcome and the number of polls |
| `OperationWait.SucceedsExactlyWhen` | examples/client_library_poc.rs:401-408 | success if and only if some poll begun in time says done without an error and all before it said to wait |
| `OperationWait.TimesOutExactlyWhen` | examples/client_library_poc.rs:388-391 | a timeout if and only if the limit passes while every reply so far said to wait |
| `OperationWait.OutcomeCaseByCase` | examples/client_library_poc.rs:401-419 | which last reply stands behind each outcome, and that only RUNNING and PENDING wait |
| `OperationWait.FirstReplyCaseByCase` | examples/client_library_poc.rs:401-419 | what each reply to the first poll leads to |
| `OperationWait.LimitsInNanoseconds` | examples/client_library_poc.rs:383-385 | 300 seconds in all, sleeps of 1, 2, 4, 8, 16 and then 30 seconds |

## Left out

- TokenCacheSwitch.AfterSwitchOnlyTheTargetIsServed: assumes that no second account change starts during or after the switch; overlapping changes share one temp file for the index.
- OAuthRedirect.AwaitRedirectCode: runs over a finite sequence of connections, each prefix of an unbounded stream; the limit on the whole sign-in and the 2048-byte read buffer are not modelled, and a connection is the text one read brings.
- OAuthRedirect.ParseRedirectRequest: URL parsing and percent-decoding are library code and a parameter; the timing of the comparison is not modelled.
- Accounts.Session.GetAccessToken: what the refresh, the CLI and the ADC file answer are parameters.
- RangedUpload.ParallelUpload: the threads' writes are atomic turns chosen one at a time by an arbitrary scheduler; a failing write ends the original by a panic and is not modelled.
- LogRetention.LogDir.Cleanup: what the metadata calls answer is fixed during a run, and names are Unicode text.
- Doctor.GenerateReport: headings and rows only; the Markdown wording of a row and the redaction of the text are not modelled.
- In the token protocol a response and its write to the cache are one step, and only `get_access_token` may be dropped half-way; account changes run to their end or fail.
- In both stores the one write of a text takes all of it or fails having written nothing; a write cut short half-way by a full disk is not modelled. Renaming, and writing through a handle to a renamed file, follow POSIX.
- The JSON library is a parameter that is assumed to read back what it writes, to refuse an empty file and to refuse anything but white space after a whole value.
- Credentials changed outside LCC (gcloud in a terminal, a second process) are not part of the token protocol; a gcloud token's own lifetime is unknown to it.
- HTTP, TLS, the keyring, subprocesses and the browser appear as outcomes: a token, a failure, a refusal.
- The bridged types other than the 20 transcribed here; their encoders are built from the same shapes, and the theorems hold for every schema.
- `anyhow::Error`, `StreamSink` and the dispatcher of the bridge.
- Duplicate keys in a JSON object: a tree holds each key once.
- `parse_machine_type_specs`, whose memory estimates are a different table.
- PKCE, the token exchange and the id token's contents.
- Redaction, tunnels, SFTP sessions, SSH keys, remote-desktop launchers and the user interface.
