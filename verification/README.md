# A verified model of JASM

JASM copies secrets from external secret managers into Kubernetes secrets. A pod carries an annotation that names
a provider, a path and a target secret; the controller fetches the path and writes the target. This project models
the four parts of it whose correctness takes an argument, and proves what they promise.

* **The retry queue** (`RetryProtocol`, `RetryInvariants`, `RetryTheorems`, `RetryLifecycle`, `RetryDraining`,
  `RetryQueue`, `Backoff`, `DepthGauge`). `RetryProtocol` is a step machine: every lock section and every atomic operation is one
  step, taken by any number of `Add` callers, one processor goroutine, one caller of `Start` and `Stop`, and an
  environment that may cancel the context. A legal sequence of steps is one interleaving. The invariant is kept by
  every step, and the theorems are about every legal run. The class `RetryQueue` holds the fields of the source and
  takes exactly those steps.
* **Bitwarden vaults** (`Base64`, `Ciphers`, `CipherStrings`, `VaultItems`, `VaultDecryption`, `BitwardenClient`,
  `BitwardenProvider`, `CacheProtocol`, `CacheTheorems`, `CacheProgress`,
  `SharedVault`, `ConcurrentFetch`). The encrypting side, which the repository does not
  contain, is defined as the specification; every layer of decryption is proved to invert it, up to one theorem
  from the master password and an encoded path to the plaintext secret. A second step machine covers concurrent
  fetches with their two locks.
* **Secret references** (`SecretPaths`, `OnePasswordRef`, `BitwardenRef`). Parsers and printers of `op://` and
  `bw://` references.
* **The reconciler** (`Reconciler`, `ReconcilerTheorems`). Reconciles as transitions over the pods and secrets of a
  cluster.

`GoStrings`, `GoMaps`, `Int64s` and `Wrappers` hold what the sources take from Go: string functions, map iteration
in an arbitrary order, wrapping 64-bit integers, and results that are a value, an error or a panic.

## Conventions

* A Go string is a sequence of bytes, modelled as a `seq<char>` with one char per byte.
* The AES block permutation, HMAC-SHA256, PBKDF2 and HKDF are function parameters (`Ciphers.Primitives`). The only
  law assumed, where it is needed, is that block encryption and decryption are inverse (`Ciphers.Lawful`); the
  lengths of blocks and digests are in the types.
* Replies of servers, the results of selects, the clock, cancellation and API faults are inputs, and theorems hold
  for all of them. The order in which Go ranges over a map is an input too.
* A panic is an outcome of its own, not a precondition.
* Base64 follows section 4 of RFC 4648 as Go decodes it (CR and LF are skipped), CBC is section 6.2 of NIST SP
  800-38A, padding is section 6.3 of RFC 5652, the MAC is section 2 of RFC 2104, percent-encoding is section 2.1 of
  RFC 3986.

## Where the code departs from what is said about it

The model follows the code. Each departure is stated as an equivalence, with an input on which the code departs.

* The backoff is documented as `base * 2^(attempt-1)` under a cap. With a base above the cap the first delay is the
  base (`NewRetryQueue(500ms, nil)` waits a second: `Backoff.HalfSecondCap`), and with a cap of 2^33 seconds or more
  the doubling overflows to a negative delay (`Backoff.HugeCap`). `Backoff.BackoffIsPromisedIff` and
  `Backoff.QueueBackoffSoundIff` say exactly when it holds.
* The gauge is described as the current depth, but absolute depths are added to it as if they were differences
  (`DepthGauge.GaugeRightIff`; two Adds show 3: `DepthGauge.GaugeDrifts`).
* A processor whose context is cancelled returns but leaves `running` set, so `Start` does not replace it until
  `Stop` has been called (`RetryLifecycle.AbandonedIff` and `AbandonedUntilStop`; a Start with a cancelled context:
  `AbandonedRun`).
* `README.md:288` says that with a key mapping only the mapped keys are in the secret. An update keeps the keys
  that were there (`ReconcilerTheorems.OnlyMappedKeysIff`; an example: `StaleKeyStays`).
* A cipher string with more than three parts is accepted (`CipherStrings.TrailingPartsIgnored`), and the MAC is
  checked only when the string has one (`CipherStrings.DecryptParsedIff`, `NoMacIff`; an example: `DroppedMac`).
* A login whose reply carries no access token succeeds, and the next call syncs again although the cache is valid
  (`CacheTheorems.SyncsAreSerial`; a run: `CacheProgress.TokenlessSyncsTwice`).
* An IV of the wrong length or an empty ciphertext panics instead of giving an error (`CipherStrings.PanicIff`; an
  example: `EmptyPartsPanic`), and `p.mu` can then never be locked again (`CacheProgress.ReleasableIff` and
  `CallAnsweredIff`; a run that gets there: `PanickedRun`).
* With two folders of one name, the item found can depend on map order (`BitwardenClients.FindIsDeterministicIff`;
  an example: `TwoFoldersOneName`).
* `String` does not escape what the parser unescapes (`OnePasswordRefs.ParsePrintIff`,
  `BitwardenRefs.ParsePrintIff`; examples: `BitwardenRefs.SlashIsLost`, `OnePasswordRefs.SectionBecomesField`).

## Model

| member | source | states |
|---|---|---|
| RetryInvariants.InvStep | internal/provider/retry_queue.go:50-157 | Every lock section, atomic operation and lifecycle step, taken in any state that satisfies the invariant, keeps it: counted depth, each item in one place, first runs in Add order, attempts counted, success final, one processor |
| RetryInvariants.InvAfter | internal/provider/retry_queue.go:50-157 | The invariant holds after every interleaving of any length |
| RetryInvariants.PlacesStep | internal/provider/retry_queue.go:50-157 | Only an Add changes the multiset of items; popping, putting back, requeueing and completing move one item from one place to another |
| RetryInvariants.ExecuteKeepsOrder | internal/provider/retry_queue.go:112-143 | The item being run has run before or is the next one in Add order, and afterwards the never-run items still wait in Add order |
| RetryTheorems.DepthIsExact | internal/provider/retry_queue.go:51-157 | In every reachable state depth is the queue length plus the item in flight minus the adders that have appended but not yet counted, so it is the queue length at rest |
| RetryTheorems.DepthCanBeNegative | internal/provider/retry_queue.go:51-157 | A run in which an item is completed before its Add counts it and depth is -1 |
| RetryTheorems.FirstRunsInAddOrder | internal/provider/retry_queue.go:51-143 | Over every run, interruptions and restarts included, items are first executed in the order of their Adds and the rest waits in that order |
| RetryTheorems.NothingLostOrDuplicated | internal/provider/retry_queue.go:51-157 | Queued, in-flight and done items are together exactly the added ones; OnComplete is called at most once per item, and only for an item whose last call of RetryFunc returned nil |
| RetryTheorems.AttemptCountsFailures | internal/provider/retry_queue.go:137-140 | Attempt is its initial value plus the number of the item's failed executions, as a 64-bit integer |
| RetryTheorems.LifecycleIsSafe | internal/provider/retry_queue.go:63-81 | With serial Start and Stop no second processor is spawned, no closed channel is closed and the channel is renewed only without a processor |
| RetryLifecycle.AbandonedUntilStop | internal/provider/retry_queue.go:63-126 | After a processor has returned while running is set, every run without Stop executes nothing and spawns no other processor |
| RetryLifecycle.AbandonedRun | internal/provider/retry_queue.go:63-99 | A run that gets there: Start with a context that is already cancelled |
| RetryLifecycle.AbandonedIsCancelled | internal/provider/retry_queue.go:88-104 | In every reachable state, a processor that returned while running is set and no Stop is under way did so for a cancelled context |
| RetryLifecycle.AbandonedIff | internal/provider/retry_queue.go:63-126 | From every reachable state between calls of Start and Stop: left alone, the queue can lose its processor for good if and only if running is set and the context is cancelled |
| RetryTheorems.BoundedWaiting | internal/provider/retry_queue.go:112-148 | An item moves forward by exactly one place with every execution and by nothing else, so at place k it is next after exactly k executions, whatever their outcomes |
| RetryTheorems.WorkAfter | internal/provider/retry_queue.go:112-148 | Executions done plus executions still needed by the waiting items is constant but for Adds, over every run |
| RetryTheorems.Draining | internal/provider/retry_queue.go:112-148 | If item i fails f(i) times, the added items take exactly the sum of f(i)+1 executions: never more, and the queue is empty exactly when all have happened |
| RetryDraining.TickIsProcessNextItem | internal/provider/retry_queue.go:106-157 | One uninterrupted tick is a legal run of the machine with the same final state as the class's method |
| RetryDraining.TickKeepsTrack | internal/provider/retry_queue.go:112-148 | Each tick takes exactly one off the executions still needed, on success and on failure |
| RetryDraining.DrainsInExactly | internal/provider/retry_queue.go:106-157 | From any state that the queue can reach between two items, n uninterrupted ticks empty it if and only if n is at least the executions still missing |
| RetryDraining.AlwaysDrainable | internal/provider/retry_queue.go:50-157 | Every reachable state, with an item waiting, failing or interrupted and with Start or Stop under way, has a continuation without Adds that takes exactly the missing executions and completes every item ever added |
| RetryQueues.RetryQueue.constructor | internal/provider/retry_queue.go:38-48 | A new queue is the initial state, with the default cap for a cap that is not positive |
| RetryQueues.RetryQueue.AppendItem | internal/provider/retry_queue.go:52-54 | The lock section of Add appends a fresh item, and is the machine's step |
| RetryQueues.RetryQueue.IncrementDepth | internal/provider/retry_queue.go:56 | The atomic increment of Add from any state in which the adder still has to count, as a step |
| RetryQueues.RetryQueue.PopHead | internal/provider/retry_queue.go:107-114 | The lock section that takes the head, as a step |
| RetryQueues.RetryQueue.PrependItem | internal/provider/retry_queue.go:121-132 | Putting an interrupted item back in front, as a step |
| RetryQueues.RetryQueue.RecordOutcome | internal/provider/retry_queue.go:137-140 | RetryFunc has returned: a failure increments the Attempt of that item and of no other, as a step |
| RetryQueues.RetryQueue.RequeueItem | internal/provider/retry_queue.go:141-143 | A failed item goes to the back, as a step |
| RetryQueues.RetryQueue.DecrementDepth | internal/provider/retry_queue.go:148 | The atomic decrement after a success, as a step |
| RetryQueues.RetryQueue.Add | internal/provider/retry_queue.go:51-60 | Appends the item, counts it and reports the new depth; refines append-then-increment |
| RetryQueues.RetryQueue.SettleItem | internal/provider/retry_queue.go:120-157 | After the pop: back in front when interrupted, at the back with one more attempt when failed, counted out when done; refines the machine's steps |
| RetryQueues.RetryQueue.ProcessNextItem | internal/provider/retry_queue.go:106-157 | One call on the whole queue: interrupted it changes nothing, failing it rotates the head, succeeding it removes the head; waits the item's backoff; refines the machine's steps |
| RetryQueues.RetryQueue.Start | internal/provider/retry_queue.go:63-70 | Spawns a processor unless running, as the machine's two steps |
| RetryQueues.RetryQueue.Stop | internal/provider/retry_queue.go:73-157 | Wherever the processor is, it finishes with its item and returns, and the channel is renewed: an interrupted item is the head, a failed one the last, a finished one is out; refines the machine's steps |
| RetryQueues.RetryQueue.FinishItem | internal/provider/retry_queue.go:120-157 | The rest of processNextItem from every point at which it can be, as the machine's steps |
| DepthGauge.ReportsAreDepths | internal/provider/retry_queue.go:51-151 | The values reported over a run differ by one from report to report, and the last one is the depth |
| DepthGauge.GaugeRightIff | internal/metrics/metrics.go:107-149 | Adding up the reports keeps to the current depth over a run if and only if the run reports at most once |
| DepthGauge.GaugeDrifts | internal/provider/onepassword.go:50-52 | Two Adds report 1 and 2, and the gauge shows 3 |
| Backoff.CalculateBackoff | internal/provider/retry_queue.go:159-173 | The loop computes Delay; in a sound configuration it does at most about log2(max/base)+1 rounds whatever the attempt |
| Backoff.BackoffIsPromisedIff | internal/provider/retry_queue.go:159-173 | The wrapping loop is min(base*2^(attempt-1), cap) for every attempt if and only if base <= cap and the first doubling above the cap is an int64 |
| Backoff.QueueBackoffSoundIff | internal/provider/retry_queue.go:159-173 | With the one-second base that means a cap from 1s up to but excluding 2^33 s |
| Backoff.UnsoundDoubling | internal/provider/retry_queue.go:166-171 | Otherwise some number of doublings below 64 yields a negative delay |
| Backoff.HalfSecondCap | internal/provider/retry_queue.go:159-173 | With a cap of 500ms the first delay is one second |
| Backoff.HugeCap | internal/provider/retry_queue.go:159-173 | With a cap of 2^33 seconds the 35th attempt gets a negative delay |
| Backoff.DelayMonotone | internal/provider/retry_queue.go:159-173 | In a sound configuration the delay is monotone in the attempt and between base and cap |
| Backoff.ShiftAgreesUpTo33 | internal/provider/bitwarden_client.go:93-97 | The shift form at n is the loop form at n+1 up to n = 33 |
| Backoff.ShiftOverflowsAt34 | internal/provider/bitwarden_client.go:93-97 | At 34 the product wraps to a negative delay and the two differ |
| Backoff.BackoffsAgreeIff | internal/provider/bitwarden_client.go:93-97 | The two forms agree on all attempts up to n if and only if n <= 33 |
| Base64.EncodeAlphabet | internal/provider/bitwarden_crypto.go:76-97 | No encoded text contains a character outside the base64 alphabet, so none contains a delimiter |
| Base64.DecodeEncode | internal/provider/bitwarden_crypto.go:81-97 | The decoder returns every byte string from its encoding |
| Base64.FromCharIff | internal/provider/bitwarden_crypto.go:81-97 | A character stands for a sextet if and only if it is at that place in the alphabet of the RFC |
| Base64.DecodesIff | internal/provider/bitwarden_crypto.go:81-97 | The decoder returns b if and only if the text is whole quanta with the 24 bits of three bytes each and at most one padded quantum at the end, whose left-over bits are ignored |
| Base64.DecodeIff | internal/provider/bitwarden_crypto.go:81-97 | A CR or LF anywhere makes no difference, and a text without them decodes as the relation says |
| Ciphers.XorBit | internal/provider/bitwarden_crypto.go:143-145 | Bit by bit, exclusive or is the sum of the two bits modulo 2 |
| Ciphers.CbcBlock | internal/provider/bitwarden_crypto.go:143-145 | The equation of the standard for each block: the decrypted block added to the ciphertext block before, the first to the IV |
| Ciphers.DecryptEncryptCbc | internal/provider/bitwarden_crypto.go:143-145 | CBC decryption inverts CBC encryption on every block multiple, for every lawful block cipher |
| Ciphers.EncryptDecryptCbc | internal/provider/bitwarden_crypto.go:143-145 | And encryption inverts decryption, so every ciphertext has one plaintext |
| Ciphers.CryptBlocks | internal/provider/bitwarden_crypto.go:143-145 | The block loop fills the buffer with the CBC decryption of the ciphertext |
| Ciphers.PadIff | internal/provider/bitwarden_crypto.go:147-158 | A padded message is the message and n bytes n, with n from 1 to 16 and a multiple of 16 in all |
| Ciphers.UnpadPad | internal/provider/bitwarden_crypto.go:147-158 | Unpadding returns every padded message |
| Ciphers.UnpadIff | internal/provider/bitwarden_crypto.go:147-158 | On block multiples unpadding returns m if and only if the input is the padding of m, and panics if and only if it is empty |
| Ciphers.StripPadding | internal/provider/bitwarden_crypto.go:147-158 | The last-byte test and the loop accept, reject and panic on exactly the inputs of Unpad |
| CipherStrings.ParseIff | internal/provider/bitwarden_crypto.go:60-105 | A string parses to cs if and only if it is the type 2, a dot, and bar-separated parts of which the first two and a third if there is one decode to the parts of cs; the empty string alone parses to none |
| CipherStrings.ParsePrint | internal/provider/bitwarden_crypto.go:60-105 | Parsing a printed cipher string gives back its IV, ciphertext and MAC, for all byte strings |
| CipherStrings.TrailingPartsIgnored | internal/provider/bitwarden_crypto.go:76-97 | For every string with a type and at least three parts, whatever is appended after another bar does not change the result |
| CipherStrings.DecryptCipherString | internal/provider/bitwarden_crypto.go:108-161 | The imperative pipeline, with its early returns and its buffer, computes Decrypt, panics included |
| CipherStrings.DecryptParsedIff | internal/provider/bitwarden_crypto.go:121-160 | With a 16-byte IV, m is returned if and only if the key has 16, 24 or 32 bytes, a MAC that is present and has a key is that of IV and ciphertext, and the ciphertext is the encryption of m |
| CipherStrings.RefusedIff | internal/provider/bitwarden_crypto.go:121-141 | For every string that parses: MAC mismatch if and only if it has a MAC, there is a key, and the MAC is not that of IV and ciphertext; then the key size, then the block size |
| CipherStrings.FlippedMac | internal/provider/bitwarden_crypto.go:121-131 | A sealed text with any byte of its MAC changed is refused under its own keys |
| CipherStrings.DecryptSeal | internal/provider/bitwarden_crypto.go:108-161 | Decryption returns every plaintext from its sealed string, for every IV and key pair |
| CipherStrings.NoMacIff | internal/provider/bitwarden_crypto.go:91-131 | A string without a MAC decrypts to m if and only if its ciphertext is the encryption of m, under every MAC key |
| CipherStrings.DroppedMac | internal/provider/bitwarden_crypto.go:91-131 | A sealed text whose MAC is dropped still opens under the MAC key |
| CipherStrings.PanicIff | internal/provider/bitwarden_crypto.go:121-148 | The code panics if and only if MAC, key size and block multiple are accepted and the IV is not 16 bytes or the ciphertext is empty |
| CipherStrings.EmptyPartsPanic | internal/provider/bitwarden_crypto.go:108-148 | The printed string with empty IV, ciphertext and MAC panics under every key of an AES size |
| CipherStrings.SealedNeverPanics | internal/provider/bitwarden_crypto.go:108-161 | A sealed string never panics, under any other key either |
| VaultItems.TypeNames | internal/provider/bitwarden_client.go:373-385 | The four type names, and the number of any other type |
| VaultItems.ToSecretMap | internal/provider/bitwarden_types.go:145-192 | The statements build SecretMap of the item |
| VaultItems.SecretMapLookup | internal/provider/bitwarden_types.go:145-192 | Under each key: notes before the last usable custom field before the card or login value, and a key is present if and only if one of them is not empty |
| VaultItems.FieldLookup | internal/provider/bitwarden_types.go:181-185 | Of several usable custom fields with one name the last one counts, and without one the map is as before |
| VaultDecryption.OpenSealed | internal/provider/bitwarden_crypto.go:164-170 | A sealed text opens to its plaintext, and an omitted empty one to the empty string |
| VaultDecryption.ItemRecovered | internal/provider/bitwarden_client.go:366-443 | An uploaded item with its name, notes, login, URIs, card and fields decrypts to exactly that item |
| VaultDecryption.ItemsRecovered | internal/provider/bitwarden_client.go:271-279 | All items of an uploaded vault are recovered, in order |
| VaultDecryption.FoldersRecovered | internal/provider/bitwarden_client.go:261-269 | The folder names of an uploaded vault are recovered by ID |
| VaultDecryption.FolderMapLast | internal/provider/bitwarden_client.go:263-269 | Of several folders with one ID the last one counts |
| VaultDecryption.CipherFailsIff | internal/provider/bitwarden_client.go:387-440 | An item fails to decrypt if and only if its name fails, or its name opens and its notes fail: no other text makes it fail |
| VaultDecryption.CipherPanicsIff | internal/provider/bitwarden_client.go:387-440 | An item panics if and only if its name does, or then its notes, or, when both open, any login, card or field text |
| VaultDecryption.UnneededTextsRead | internal/provider/bitwarden_client.go:403-440 | Each login, card and field text is its own plaintext in the item, or empty when it does not open |
| VaultDecryption.FoldersOutcome | internal/provider/bitwarden_client.go:262-269 | The folders decrypt if and only if all names open, and panic if and only if the first that does not open panics |
| VaultDecryption.CiphersOutcome | internal/provider/bitwarden_client.go:272-279 | The items decrypt if and only if each does, and panic if and only if the first that does not panics |
| BitwardenClients.FetchIff | internal/provider/bitwarden_client.go:212-259 | A sync obtains a vault if and only if one of at most four requests answers with it after retryable failures only and no cancelled sleep |
| BitwardenClients.VaultRecovered | internal/provider/bitwarden_client.go:261-279 | The sync of an uploaded vault is its folder map and its items |
| BitwardenClients.SyncOutcomeIff | internal/provider/bitwarden_client.go:212-289 | A sync publishes if and only if it is answered with a vault of which every folder and item decrypts, panics if and only if the first bad text of the answer panics, and otherwise fails |
| BitwardenClients.AuthKeysIff | internal/provider/bitwarden_client.go:194-318 | The keys of an authentication exist if and only if PBKDF2 is asked for, both replies come, and the reply's key decrypts under the "enc" and "mac" expansions of the master key to 64 bytes, of which they are the halves |
| BitwardenClients.AuthenticationRecoversVault | internal/provider/bitwarden_client.go:194-326 | From the password: if the server keeps the sealed 64-byte key and the vault sealed under its halves, authentication recovers exactly that vault |
| BitwardenClients.FindAnswers | internal/provider/bitwarden_client.go:329-353 | In any map order, on the fields of any vault: no folder when none has the name or one with an empty ID has it; else, for one of those that have it, its first item of the name, or no item when none has it |
| BitwardenClients.FindIsDeterministicIff | internal/provider/bitwarden_client.go:333-352 | The lookup is the same for all map orders if and only if at most one folder has the name, or none of those that have it has an empty ID or an item of the requested name |
| BitwardenClients.TwoFoldersOneName | internal/provider/bitwarden_client.go:333-352 | With two folders of one name, one order finds the item and the other does not |
| BitwardenClients.BitwardenClient.DeriveKeys | internal/provider/bitwarden_client.go:136-148 | The master key and the stretched keys are those of the password and nothing else changes |
| BitwardenClients.BitwardenClient.DecryptSymmetricKey | internal/provider/bitwarden_client.go:194-209 | The keys become the halves of a 64-byte plaintext, or stay as they were |
| BitwardenClients.BitwardenClient.RequestVault | internal/provider/bitwarden_client.go:216-259 | The loop computes FetchFrom; it makes at most 4 requests, goes on only after a transport error, 429 or 5xx, and sleeps 1, 2 and 4 seconds between them, all four requests before it gives up |
| BitwardenClients.BitwardenClient.DecryptFolderNames | internal/provider/bitwarden_client.go:262-269 | The folder loop is DecryptFolders, up to the first error |
| BitwardenClients.BitwardenClient.DecryptItems | internal/provider/bitwarden_client.go:272-279 | The item loop is DecryptCiphers, up to the first error |
| BitwardenClients.BitwardenClient.SyncVault | internal/provider/bitwarden_client.go:212-289 | Publishes the whole decrypted vault and its expiry, or leaves the cache unchanged |
| BitwardenClients.BitwardenClient.Authenticate | internal/provider/bitwarden_client.go:292-326 | The whole new state on success and after a failure at any step: the cache only changes at the end, token and keys with the step that got them |
| BitwardenClients.BitwardenClient.FindItem | internal/provider/bitwarden_client.go:329-353 | The two search loops, in any map order, find what Find finds |
| BitwardenProviders.BitwardenProvider.FetchSecret | internal/provider/bitwarden.go:99-163 | Answers from the cache if it and the token are valid and from a newly authenticated vault otherwise; on an error or a panic the cache is unchanged |
| BitwardenProviders.BitwardenProvider.AnswerFor | internal/provider/bitwarden.go:125-162 | The lookup, the map of the item and the restriction to a field, from the cache as it is |
| BitwardenProviders.FetchAnswers | internal/provider/bitwarden_client.go:329-353 | With unique folders, in any map order, the answer is that of the plaintext vault, on its names and IDs: no such folder, no item with both the folder ID and the name, or what is made of the first item with both |
| BitwardenProviders.EndToEnd | internal/provider/bitwarden.go:99-162 | A sealed vault, authenticated with the password and queried with an encoded path, answers as the plaintext vault does |
| BitwardenProviders.FieldRestricts | internal/provider/bitwarden.go:148-157 | Of any two accepted paths to one item, the one with a field gives exactly that entry of the answer for the one without |
| BitwardenProviders.FieldAppended | internal/provider/bitwarden_ref.go:46-93 | Appending a field in any encoding to any accepted path without one gives the same reference with that field |
| CacheTheorems.InvAfter | internal/provider/bitwarden.go:112-125 | Lock ownership, agreement of the cache fields, order of the syncs and what each call knows are kept by every interleaving |
| CacheTheorems.SnapshotConsistency | internal/provider/bitwarden_client.go:281-353 | A call that got through FindItem read folders and items of one completed sync, published less than the TTL before its validity check or after it |
| CacheTheorems.SyncsAreSerial | internal/provider/bitwarden.go:113-122 | Each sync was decided on after the one before was published, and then only because that one's TTL had passed, the last login had brought no token, or its token had expired when it was checked |
| CacheProgress.TokenlessSyncsTwice | internal/provider/bitwarden_client.go:187-188 | A run in which a login brings no token and the next call syncs again at the same time |
| CacheTheorems.LocksExclude | internal/provider/bitwarden_client.go:281-286 | At most one call is inside p.mu, and none reads the cache while one publishes |
| SharedVaults.SharedVault.constructor | internal/provider/bitwarden_client.go:71-82 | An empty client is the initial state of the protocol |
| SharedVaults.SharedVault.IsCacheValid | internal/provider/bitwarden_client.go:33-37 | The check on the expiry field is the step of the protocol, with the same outcome |
| SharedVaults.SharedVault.IsAuthenticated | internal/provider/bitwarden_client.go:361-363 | The check on the two token fields is the step of the protocol, with the same outcome |
| SharedVaults.SharedVault.StoreToken | internal/provider/bitwarden_client.go:187-188 | Storing the token of any login reply, an empty one included, as a step |
| SharedVaults.SharedVault.WriteFolders | internal/provider/bitwarden_client.go:283 | The first assignment of the publishing section, as a step |
| SharedVaults.SharedVault.WriteItems | internal/provider/bitwarden_client.go:284 | The second assignment, as a step |
| SharedVaults.SharedVault.WriteExpiry | internal/provider/bitwarden_client.go:285 | The third assignment, as a step, after which both fields are those of one decrypted vault |
| SharedVaults.SharedVault.ReadFolderNames | internal/provider/bitwarden_client.go:335-340 | A reader sees the folders of the sync noted in the protocol |
| SharedVaults.SharedVault.ReadAllItems | internal/provider/bitwarden_client.go:346-350 | A reader then sees the items of the same sync |
| ConcurrentFetches.AnswersFromOneVault | internal/provider/bitwarden.go:112-157 | Over all interleavings, a call that gets through answers the lookup in one vault that a sync of the run decrypted as a whole, published less than the TTL before the validity check or after it |
| ConcurrentFetches.ConcurrentEndToEnd | internal/provider/bitwarden.go:99-162 | If every authentication of the run meets a server that keeps a sealed vault with unique folders, each call that gets through answers as one of these plaintext vaults does, in any map order |
| CacheProgress.WedgedForever | internal/provider/bitwarden.go:113-122 | After a panic inside p.mu there is never another sync, and no call gets through that was not through before |
| CacheProgress.PanickedRun | internal/provider/bitwarden.go:113-122 | A run of the protocol that gets there |
| CacheProgress.ReleasableIff | internal/provider/bitwarden.go:113-122 | In every state that satisfies the invariant p.mu can still be released if and only if no call has panicked |
| CacheProgress.CallAnsweredIff | internal/provider/bitwarden.go:99-125 | No deadlock: in every such state a call that waits for p.mu can still get its answer, whatever the others are in the middle of, if and only if none has panicked |
| SecretPaths.HexValueIff | internal/provider/onepassword_ref.go:64 | A character has the value n if and only if it is the n-th hexadecimal digit in lower or upper case |
| SecretPaths.UnescapeIff | internal/provider/onepassword_ref.go:64-68 | Decoding returns v if and only if the text encodes v: any characters escaped, percent signs always, digits in either case |
| SecretPaths.EscapeEncodes | internal/provider/onepassword_ref.go:64-68 | Every byte string has such encodings without a slash, whichever characters an encoder keeps and in whichever case it prints |
| SecretPaths.FilterBeforeDecoding | internal/provider/onepassword_ref.go:61-78 | Dropping empty parts before decoding gives the same components and the same error as dropping them after |
| SecretPaths.ComponentsOfEncoded | internal/provider/onepassword_ref.go:61-78 | Any non-empty components, in any encoding without slashes and joined by slashes, are read back |
| SecretPaths.ExtraSlashes | internal/provider/onepassword_ref.go:71-78 | Extra slashes before, between and after components change nothing |
| SecretPaths.ComponentsAppend | internal/provider/bitwarden_ref.go:57-74 | One more encoded component is read as one more component, after any path |
| SecretPaths.ComponentsLength | internal/provider/onepassword_ref.go:61-78 | Each slash costs one character and each escape two |
| SecretPaths.ComponentsOfJoinIff | internal/provider/onepassword_ref.go:18-26 | Components joined without escaping are read back if and only if none contains a slash or a percent sign |
| SecretPaths.PathComponents | internal/provider/onepassword_ref.go:61-78 | The in-place decoding loop and the filter loop compute Components, errors included |
| OnePasswordRefs.ParseSecretReference | internal/provider/onepassword_ref.go:50-109 | The parser, branch by branch, is Parse |
| OnePasswordRefs.AcceptedIff | internal/provider/onepassword_ref.go:50-109 | A string is accepted as r if and only if it starts with op://, all parts decode, and two to four components are not empty, which are the fields of r in their places |
| OnePasswordRefs.ParseEncoded | internal/provider/onepassword_ref.go:50-109 | Two to four non-empty components in any encoding are read back as vault, item, section and field |
| OnePasswordRefs.AcceptedIsValid | internal/provider/onepassword_ref.go:34-43 | Every accepted reference passes Validate and has a field if it has a section |
| OnePasswordRefs.ParsePrintIff | internal/provider/onepassword_ref.go:18-26 | Parsing undoes String if and only if the reference is valid, a section comes with a field, and nothing in it contains / or % |
| OnePasswordRefs.SectionBecomesField | internal/provider/onepassword_ref.go:18-26 | A section without a field is printed and read back as the field |
| OnePasswordRefs.ParseExtraSlashes | internal/provider/onepassword_ref.go:71-78 | Parsing is unchanged by extra slashes |
| BitwardenRefs.ParseBitwardenReference | internal/provider/bitwarden_ref.go:46-99 | The parser, branch by branch, is Parse |
| BitwardenRefs.AcceptedIff | internal/provider/bitwarden_ref.go:46-99 | A string is accepted as r if and only if it starts with bw://, all parts decode, and two or three components are not empty, which are the fields of r in their places |
| BitwardenRefs.ParseEncoded | internal/provider/bitwarden_ref.go:46-99 | Two or three non-empty components in any encoding are read back as folder, item and field |
| BitwardenRefs.AcceptedIsValid | internal/provider/bitwarden_ref.go:34-42 | Every accepted reference passes Validate |
| BitwardenRefs.ParsePrintIff | internal/provider/bitwarden_ref.go:21-26 | Parsing undoes String if and only if the reference is valid and nothing in it contains / or % |
| BitwardenRefs.SlashIsLost | internal/provider/bitwarden_ref.go:21-26 | An item name with a slash is printed as an item and a field |
| BitwardenRefs.ParseExtraSlashes | internal/provider/bitwarden_ref.go:67-74 | Parsing is unchanged by extra slashes |
| Reconciler.PodSecretReconciler.BuildStringData | internal/controller/podsecret_controller.go:112-129 | In any map order the loops build the composition of the mapping with the fetched data, or the data itself without a mapping |
| Reconciler.PodSecretReconciler.Reconcile | internal/controller/podsecret_controller.go:51-164 | The result for every pod, annotation, answer of the provider and API fault, the overlay write exactly on success, and a requeue exactly when the fetch failed |
| ReconcilerTheorems.ReconcileWrites | internal/controller/podsecret_controller.go:112-159 | Without a mapping every fetched entry is written; with one, k is written if and only if it is mapped to a fetched key, with its value; labels, source path, sync time and type are set, and everything else stays |
| Reconciler.PodSecretReconciler.FindPodsForSecret | internal/controller/podsecret_controller.go:180-214 | The requests for a managed secret in list order, none for another secret or when the list fails |
| ReconcilerTheorems.DifferentTargetsCommute | internal/controller/podsecret_controller.go:98-159 | Reconciles of different targets commute exactly |
| ReconcilerTheorems.SameTargetCommutesIff | internal/controller/podsecret_controller.go:131-159 | Two writes of one secret commute, sync time aside, if and only if they agree on the path and on every key that both supply |
| ReconcilerTheorems.SameRequestsAgree | internal/controller/podsecret_controller.go:90-129 | Pods that request the same provider, path and keys want the same contents |
| ReconcilerTheorems.WantedStored | internal/controller/podsecret_controller.go:98-159 | After any run a secret that handled pods want is one write over what was there, however often it was written |
| ReconcilerTheorems.UnwantedUntouched | internal/controller/podsecret_controller.go:98-159 | After any run a secret that no handled pod wants is unchanged |
| ReconcilerTheorems.RunKeys | internal/controller/podsecret_controller.go:98-159 | After any run the keys of a secret are those it had and those that handled pods ask for |
| ReconcilerTheorems.RunValues | internal/controller/podsecret_controller.go:98-159 | When pods that share a secret are compatible, each supplied key has the value any of them gives it and the other keys keep theirs |
| ReconcilerTheorems.Confluence | internal/controller/podsecret_controller.go:98-159 | If pods that share a target are compatible, any two runs over the same pods, in any order and with repetitions, end in the same secrets, sync times aside |
| ReconcilerTheorems.ConfluentIff | internal/controller/podsecret_controller.go:98-159 | Order and repetition never matter if and only if the pods that share a target name one path and agree on the keys both ask for |
| ReconcilerTheorems.RequestsConcat | internal/controller/podsecret_controller.go:190-211 | The requests are a filter of the list: each pod that names the secret, once and in place |
| ReconcilerTheorems.RequestsAreThePods | internal/controller/podsecret_controller.go:190-211 | A pod is requested if and only if it is in the secret's namespace and its valid annotation names the secret |
| ReconcilerTheorems.DeletionIsRepaired | internal/controller/podsecret_controller.go:177-214 | Handling the requests for a deleted secret, in any order, brings it back as a managed opaque secret if and only if one of them can be fetched, and touches no other secret |
| ReconcilerTheorems.RepairRestoresData | internal/controller/podsecret_controller.go:177-214 | If pods are compatible, the secret then holds exactly the entries that the requested pods ask for; if they agree, exactly what each of them asks for |
| ReconcilerTheorems.OnlyMappedKeysIff | README.md:288 | After any run of reconciles with a mapping only mapped keys are in the secret if and only if it was new or held only such keys before |
| ReconcilerTheorems.StaleKeyStays | README.md:288 | A secret with another entry keeps it when it is updated through a mapping |

## Left out

* HTTP, JSON and YAML, environment variables, provider registration, manifests.
* The AWS provider and the 1Password client; only the 1Password reference parser is modelled.
* The internals of AES, SHA-256, PBKDF2 and HKDF and any statement about their strength; lower-casing of the email
  address; an error from the HKDF reader, which cannot run out at 32 bytes.
* The password hash and the contents of the prelogin and login requests.
* `VaultCache.Clear`, which no non-test code calls, and the authentication inside `NewBitwardenProvider`, which is
  like the first call of the cache protocol.
* Tickers, real durations and fairness of the scheduler: a select takes any ready case, the clock only moves forward.
* Metrics other than the depth gauge, logging, events, error wording, `wrapError` and `isBWRateLimited`.
* Racing calls of `Start` and `Stop`, a panic in `RetryFunc`, and the contents of `OnComplete`.
* The 64-bit width of `depth`, which would take 2^63 queued items to matter.
* The order in which concurrent depth callbacks arrive; the gauge is modelled as if each ran with its update.
* The namespace comparison at internal/controller/podsecret_controller.go:75-80: `ParseAnnotation` copies the pod's
  namespace (internal/annotation/parser.go:65), so it cannot fail.
* Conflicts, validation and immutability checks of the Kubernetes API other than as a write that fails.
* Whether reconciles stop: every write changes `synced-at`, which can trigger the secret watch again.
- RetryQueues.RetryQueue.Add: its ensures is for a call without interference; the interleavings of its two steps with others are those of RetryProtocol.
- RetryQueues.RetryQueue.ProcessNextItem: the same, and the backoff's select is decided by a parameter.
- RetryQueues.RetryQueue.Stop: the processor returns after the item it has in hand; that the select may pick further ticks although the channel is closed is covered by the step machine only, and where the processor is comes in as a parameter.
- DepthGauge.GaugeRightIff: judges the gauge at every report of a run; that it can be right again by chance later is not of interest.
- Ciphers.CryptBlocks: writes to a buffer that does not overlap the ciphertext, as the code does, with blocks in forward order.
- BitwardenProviders.BitwardenProvider.FetchSecret: for a call without interference; what concurrent calls answer is stated in ConcurrentFetches.
