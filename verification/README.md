# authn, modelled

A Dafny model of the credential service `authn`: how it names, mints, stores,
renews, annotates, sweeps and copies credentials, and how an OpenID Connect
login becomes one. Each module follows one source file; objects that the
service updates in place are classes here, and its loops are loops.

| module | about |
|---|---|
| Word64, Bytes, Results | 64-bit words with wrap-around, little-endian bytes, optional values |
| Isaac64, Uuid | the random generator and the UUIDs drawn from it |
| ShortId, ShortIdRuns | short ids: alphabet, encoder, clock and counter |
| Durations | instants and durations, with the saturation of their differences |
| Storage | Secret names, the groups annotation, what is recorded about a certificate |
| SecretStore | all writers of credential Secrets as one state machine, and its invariants |
| Cluster | one client's view of it: other clients act before each call, and calls may fail |
| Interleavings | an actor's own steps woven into the others', and credentials left alone |
| CredentialPut, StepUpSweep, IdentityBackfill, Renewal | the four actors, as methods over that client |
| RenewalTiming | the renewal loop in time |
| CorsHeaders | the header list tokenizer |
| RestAction | copying a RESTAction for one user, calling it, deleting the copy |
| UserInfo, Minting | identities, reserved groups, and the gates before a certificate is asked for |
| LoginAnswer | the answer to a login and the token in it |
| OidcClaims, OidcLogin | ID tokens, claims, the identity merge, the login and step-up handlers |

What the code does not decide itself is an input, so every property holds for
every value of it: other clients' steps, failing calls, the signer's answer,
random bytes, clock readings, map iteration orders, the answers of the identity
provider and of RESTActions. `dns` stands for the library's conversion of names
to DNS-1123 form, and may be any function.

## Findings

Where the code does less than its documentation or a reader might expect, the
model follows the code and says exactly when it holds:

- Short ids can collide once the clock returns to a millisecond it has left,
  because the counter restarts (`shortid.go:215-220`); whether they do depends on
  the random bits. `CollisionFreeIff` makes that the exact condition.
- `LegacyResolve` restores the cluster only if no object bore a copy's name; one
  that did is overwritten and deleted (`resolver.go:180-195`, `RestoredIff`). If
  the call of the copy fails (`resolver.go:134-145`), the copies, token included,
  stay until a later attempt succeeds (`RetriesRestore`).
- A step-up write can miss both its calls (`storage.go:138-147`), since the sweep
  may delete the name between them; a session write cannot
  (`BothCallsCanMissIff`).
- The groups annotation reads back for every valid list except the one that holds
  only the empty name (`identity.go:82-87`, `GroupsRoundTrip`).
- A certificate without groups whose groups annotation alone is missing is not
  repaired while it stays current, since an absent annotation reads as ""
  (`renewal.go:361-366`, `InOrderIff`). The next issuance brings the annotation
  back (`MissingGroupsComeBack`).
- A byte that belongs to no header name takes the capital of the header it stands
  before, or of the word after a dash (`utils.go:58-67`); `CanonicalIff` says of
  every string whether it does.
- `checkStepUp` accepts an `auth_time` in the future, and the greatest possible
  `maxAge` accepts any age, because differences of instants saturate
  (`stepup.go:115`, `StepUpIsProvedByTheToken`).
- A login whose token cannot be signed fails after its credential was stored
  (`login.go:89-107`, `stepup.go:219-241`).

## Model

| member | source | states |
|---|---|---|
| Isaac64.UnstepStep | go/authn/internal/uuid/isaac64.go:87-112 | `Unstep` undoes each of the 256 in-place steps, also when a looked-up index is the word being rewritten |
| Isaac64.StepUnstep | go/authn/internal/uuid/isaac64.go:87-112 | Every state is the result of a step: the inverse is two-sided |
| Isaac64.ShuffleIsBijective | go/authn/internal/uuid/isaac64.go:81-114 | `shuffle` is a bijection on the whole state (buf, a, b, c), with `Unshuffle` as its two-sided inverse |
| Isaac64.ShuffleInjective | go/authn/internal/uuid/isaac64.go:81-114 | Two states have the same successor if and only if they are the same |
| Isaac64.NoTailBeforeACycle | go/authn/internal/uuid/isaac64.go:67-74 | A run revisits a state if and only if it comes back to its start after as many shuffles: no tail leads into a cycle |
| Isaac64.ShuffleRecurs | go/authn/internal/uuid/isaac64.go:81-114 | The whole recurrence in plain arithmetic, from the tables before and after a shuffle: every accumulator, every new word and every word of the block, with each look-up new or old as the loop has it |
| Isaac64.BlockFromTables | go/authn/internal/uuid/isaac64.go:90-93 | Word k of a block is a table entry, new up to k and old above, plus the word that was overwritten |
| Isaac64.ShuffleEnds | go/authn/internal/uuid/isaac64.go:82-83 | The accumulators start and end with the state’s, the counter moves by one, and the last word emitted is the new b |
| Isaac64.SplitMixMeans | go/authn/internal/uuid/isaac64.go:34-39 | The mixing in plain arithmetic |
| Isaac64.SeedWordMeans | go/authn/internal/uuid/isaac64.go:29-45 | Word k of the seeded table is the mixing of the seed plus k + 1 times the constant; the rest is zero |
| Isaac64.ByteSeedMeans | go/authn/internal/uuid/isaac64.go:56-61 | Word k of a table read from bytes is made of bytes 8k to 8k + 7; the rest is zero |
| Isaac64.SplitMixInjective | go/authn/internal/uuid/isaac64.go:34-39 | The mixing of xor-shifts and odd multiplications loses nothing |
| Isaac64.CounterInjective | go/authn/internal/uuid/isaac64.go:33 | Adding the odd constant does not repeat within 2^64 steps |
| Isaac64.SeedWordsAreDistinct | go/authn/internal/uuid/isaac64.go:29-41 | The 256 words `Seed` writes are pairwise distinct |
| Isaac64.SeedsNeverMerge | go/authn/internal/uuid/isaac64.go:29-46 | Distinct seeds give distinct states after `Seed`, and after any number of blocks drawn since |
| Isaac64.ByteSeedsNeverMerge | go/authn/internal/uuid/isaac64.go:51-64 | Distinct 2,048-byte seeds give distinct states after `SeedFrom` |
| Isaac64.Rand.constructor | go/authn/internal/uuid/isaac64.go:24-26 | An unseeded generator is all zeros, with its first block still to come |
| Isaac64.Rand.Seed | go/authn/internal/uuid/isaac64.go:29-46 | The in-place seeding puts the generator at the start of the stream of that seed |
| Isaac64.Rand.SeedFrom | go/authn/internal/uuid/isaac64.go:51-64 | 2,048 bytes start the stream of their words; fewer are an error that changes nothing |
| Isaac64.Rand.Round | go/authn/internal/uuid/isaac64.go:87-93 | One unrolled quarter of the loop, in place, is one `Step` and emits its `b` |
| Isaac64.Rand.FourWords | go/authn/internal/uuid/isaac64.go:84-112 | The loop body, its four scramblings written out, is four steps |
| Isaac64.Rand.ShuffleBlock | go/authn/internal/uuid/isaac64.go:81-114 | The in-place shuffle moves the state by `Shuffle`, fills `out` with the next block and resets the index |
| Isaac64.Rand.Uint64 | go/authn/internal/uuid/isaac64.go:67-74 | The n-th word drawn is word n mod 256 of block n div 256 of the pure iteration: refills and buffers agree with a simple infinite stream |
| Isaac64.Rand.Int63 | go/authn/internal/uuid/isaac64.go:77-79 | The high 63 bits of the next word of the stream |
| Word64.XorByDigit | go/authn/internal/uuid/isaac64.go:35 | Exclusive or works digit by digit |
| Word64.UnXorShiftXorShift | go/authn/internal/uuid/isaac64.go:35-39 | A xor-shift, left or right and by any amount above 0, is undone by doubling its distance |
| Word64.XorShiftUnXorShift | go/authn/internal/uuid/isaac64.go:35-39 | … and undoes that in turn |
| Word64.XorShiftInjective | go/authn/internal/uuid/isaac64.go:35-39 | Xor-shifts are injective |
| Word64.MulInjective | go/authn/internal/uuid/isaac64.go:36-38 | Multiplication modulo 2^64 by a number with an inverse is injective |
| Word64.ShiftRightDivides | go/authn/internal/uuid/isaac64.go:35 | Shifting one place at a time is division by a power of two |
| Word64.ShiftLeftMultiplies | go/authn/internal/uuid/isaac64.go:86 | Shifting left is multiplication by a power of two modulo 2^64 |
| Bytes.LittleEndianMeans | go/authn/internal/uuid/uuid.go:159-160 | The lowest byte comes first |
| Bytes.LittleEndianRoundTrips | go/authn/internal/uuid/uuid.go:159-160 | Eight bytes and one word determine each other |
| Uuid.Hexify | go/authn/internal/uuid/uuid.go:59-69 | Writing by the index table fills exactly the 36 bytes of the canonical text and nothing else of the buffer |
| Uuid.ParseBytes | go/authn/internal/uuid/uuid.go:110-127 | Accepts exactly the 36-byte texts with four dashes in place and hexadecimal digits elsewhere, and gives what they denote |
| Uuid.UnhexAccepts | go/authn/internal/uuid/uuid.go:118-125 | A digit string is refused just when some byte of it is no hexadecimal digit |
| Uuid.TablePlacesDigits | go/authn/internal/uuid/uuid.go:13-14 | Entry k of the index table is where the digits of byte k stand in the text |
| Uuid.TextAt | go/authn/internal/uuid/uuid.go:59-69 | Where each byte’s two digits stand, high digit first, and the dashes |
| Uuid.DigitsAre | go/authn/internal/uuid/uuid.go:16-51 | The sixteen digits printed, and what every byte reads as |
| Uuid.AcceptsIff | go/authn/internal/uuid/uuid.go:110-127 | Exactly what the parser accepts: 36 bytes, dashes after the groups, digits of either case elsewhere |
| Uuid.ParsePrinted | go/authn/internal/uuid/uuid.go:59-127 | Parsing a printed UUID gives it back, for every 16 bytes (RFC 9562, section 4) |
| Uuid.PrintParsed | go/authn/internal/uuid/uuid.go:59-127 | Printing a parsed text gives that text in lower case, for every text the parser accepts |
| Uuid.ToString | go/authn/internal/uuid/uuid.go:71-75 | The canonical text |
| Uuid.MarshalJSON | go/authn/internal/uuid/uuid.go:89-95 | The canonical text between quotes |
| Uuid.UnmarshalJSON | go/authn/internal/uuid/uuid.go:97-107 | Takes a quoted text the parser accepts; on any other input it fails and leaves the receiver as it was |
| Uuid.JsonRoundTrips | go/authn/internal/uuid/uuid.go:89-107 | The JSON form reads back |
| Uuid.JsonReprints | go/authn/internal/uuid/uuid.go:89-107 | An accepted JSON form reprints in lower case |
| Uuid.UnmarshalBinary | go/authn/internal/uuid/uuid.go:81-87 | Takes the first 16 bytes; fewer are an error that changes nothing |
| Uuid.NewV4 | go/authn/internal/uuid/uuid.go:156-164 | Two words of the stream, little-endian, with version and variant overwritten |
| Uuid.V4IsMarked | go/authn/internal/uuid/uuid.go:161-162 | Version 4 and the variant bits are always set (RFC 9562, section 5.4) |
| Uuid.V4Means | go/authn/internal/uuid/uuid.go:156-164 | Every byte of a version 4 UUID, from the two words it is drawn from |
| Uuid.V4KeepsTheRest | go/authn/internal/uuid/uuid.go:159-163 | Equal UUIDs come from word pairs equal in the other 122 bits: nothing else is lost |
| ShortId.DrawIs | go/authn/internal/shortid/shortid.go:281-282 | The seed’s step with the wrap-around of its product, and the index drawn: the floor of seed times length over 233280 |
| ShortId.ShuffledDraws | go/authn/internal/shortid/shortid.go:280-287 | The symbol at that index comes first, and the rest is drawn from what is left |
| ShortId.ShuffledIsPermutation | go/authn/internal/shortid/shortid.go:278-288 | For every seed, the wrap-around of its first product included, shuffling ends in a permutation of the symbols |
| ShortId.PermutationsAreDistinct | go/authn/internal/shortid/shortid.go:268-276 | A permutation of different symbols is different symbols |
| ShortId.Abc.Shuffle | go/authn/internal/shortid/shortid.go:278-288 | The loop that moves symbols from the source to the alphabet draws them in that order |
| ShortId.NewAbc | go/authn/internal/shortid/shortid.go:246-257 | Succeeds exactly on 64 different symbols, and then holds a permutation of them |
| ShortId.Abc.Encode | go/authn/internal/shortid/shortid.go:298-328 | Fails exactly outside 4 to 6 digits or when the value does not fit; otherwise indexes within the alphabet and gives the encoding of the size asked for or computed |
| ShortId.IndexIsDigit | go/authn/internal/shortid/shortid.go:323-324 | Masking and or-ing in noise gives a position below 64 whose low part is the digit, for every noise byte |
| ShortId.IndexMeans | go/authn/internal/shortid/shortid.go:313-324 | The position is the digit, and above it exactly the noise bits the digit does not use |
| ShortId.EncodedAt | go/authn/internal/shortid/shortid.go:321-326 | Symbol i is the one at the position of digit i |
| ShortId.DecodeEncoded | go/authn/internal/shortid/shortid.go:298-328 | Masking each symbol’s position recovers the value exactly, for any random bits |
| ShortId.SizeIsLeast | go/authn/internal/shortid/shortid.go:303-306 | The computed size suffices, and is the least that does |
| ShortIdRuns.Shortid.constructor | go/authn/internal/shortid/shortid.go:145-153 | A new generator starts at millisecond 0 and counter 0 |
| ShortIdRuns.New | go/authn/internal/shortid/shortid.go:140-156 | Refuses workers above 31 and unusable alphabets, and nothing else |
| ShortIdRuns.Shortid.GetMsAndCounter | go/authn/internal/shortid/shortid.go:206-222 | The clock-and-counter transition; the duration truncates and wraps as in Go |
| ShortIdRuns.Shortid.GenerateInternal | go/authn/internal/shortid/shortid.go:182-204 | The id is the encoding of the reading just taken, and fails exactly when that does not fit |
| ShortIdRuns.MillisMeans | go/authn/internal/shortid/shortid.go:206-214 | Readings are whole milliseconds since the epoch, in the order of the instants |
| ShortIdRuns.IdLayout | go/authn/internal/shortid/shortid.go:182-203 | Eight symbols for the millisecond, one for the worker, and more only for a counter above 0 |
| ShortIdRuns.IdDetermines | go/authn/internal/shortid/shortid.go:182-204 | Whatever the random bits, an id gives back its millisecond, worker and counter |
| ShortIdRuns.IdsCanMeet | go/authn/internal/shortid/shortid.go:136-139 | Two ids over one alphabet can be equal just when worker, millisecond and counter agree: different workers never meet |
| ShortIdRuns.MonotoneClockNeverCollides | go/authn/internal/shortid/shortid.go:182-222 | While the clock does not run backwards and fits 40 bits, every id succeeds and all are different, whatever the random bits |
| ShortIdRuns.AscendingInstantsNeverCollide | go/authn/internal/shortid/shortid.go:182-222 | The same of instants: the first 2^40 milliseconds after the epoch never collide |
| ShortIdRuns.NoReturnNeverCollides | go/authn/internal/shortid/shortid.go:182-222 | The same for any clock that does not come back to a millisecond it has left |
| ShortIdRuns.ReturnRepeats | go/authn/internal/shortid/shortid.go:215-220 | A clock that does come back, later than the epoch’s own millisecond, makes the generator repeat a reading |
| ShortIdRuns.RestartRepeats | go/authn/internal/shortid/shortid.go:206-222 | So does every other return, save a single call at the millisecond 0 the run began with |
| ShortIdRuns.CollisionFreeIff | go/authn/internal/shortid/shortid.go:182-222 | Exactly when: no collision is possible in a run if and only if its clock never returns to a millisecond it has left, save that single call; after millisecond 0, without exception |
| ShortIdRuns.RestartsNeverCollideIff | go/authn/internal/shortid/shortid.go:42-45 | Two runs of fresh generators of one worker that share no millisecond never return the same id; after millisecond 0, if and only if |
| ShortIdRuns.RestartNeverCollides | go/authn/internal/shortid/shortid.go:42-45 | A restart after the last millisecond used never repeats an id, on clocks that do not run backwards |
| Storage.NameFamiliesAreDisjoint | go/authn/internal/helpers/kube/config/storage/storage.go:49-71 | Session and step-up names never coincide, for all usernames; a step-up name is recognised unless the converted username is empty |
| Storage.NamesTellUsersApart | go/authn/internal/helpers/kube/config/storage/storage.go:51-63 | Two users share a Secret name if and only if their converted names are the same |
| Storage.FamiliesAre | go/authn/internal/helpers/kube/config/storage/storage.go:66-71 | Which names the sweep and the backfill take for theirs: a user, then the suffix |
| Storage.RecordedIs | go/authn/internal/helpers/kube/config/storage/storage.go:117-127 | What `Put` stamps, all four annotations, and exactly when and why it refuses |
| Storage.GroupsRoundTrip | go/authn/internal/helpers/kube/config/storage/identity.go:48-87 | `SplitGroups` undoes the newline join for a valid list if and only if it is not the list of the empty name; the join undoes `SplitGroups` for every text |
| Storage.JoinIsAlmostInjective | go/authn/internal/helpers/kube/config/storage/identity.go:75-78 | Two valid lists share an annotation only if equal, or the empty list and the list of the empty name |
| SecretStore.StepKeepsVersions | go/authn/internal/helpers/kube/config/storage/storage.go:105-148 | A version identifies a content: kept by every step of every actor |
| SecretStore.ReadIsStored | go/authn/internal/certrenewal/renewal.go:331-335 | What was read at a version is what is stored at that version |
| SecretStore.StepKeepsTruth | go/authn/internal/certrenewal/renewal.go:340-383 | Groups and validity annotations, when present, describe the certificate beside them: kept by every step from any state where it holds |
| SecretStore.AnnotationWritesKeepCredentials | go/authn/internal/identitybackfill/backfill.go:113-116 | A conditional annotation write never brings back an older credential, however old the read behind it |
| SecretStore.StepKeepsCredentials | go/authn/internal/helpers/kube/config/storage/storage.go:105-148 | Every stored certificate and key are together those of the last login or issuance that landed on the name |
| SecretStore.LastMeans | go/authn/internal/helpers/kube/config/storage/storage.go:105-148 | The last credential is that of the latest write of the name in the log, or else what was there at the start |
| SecretStore.StepKeepsRemovals | go/authn/internal/stepupsweep/sweep.go:90-103 | A removal takes only what was, at that instant, a step-up certificate expired for the grace period |
| SecretStore.StepKeepsInvariant | go/authn/internal/helpers/kube/config/storage/storage.go:105-148 | All four together, kept by every step |
| SecretStore.EveryInterleavingKeepsInvariant | go/authn/internal/helpers/kube/config/storage/storage.go:105-148 | All four, in every interleaving of logins, issuances, backfills, annotation syncs, sweeps and time |
| SecretStore.InvariantAtStart | go/authn/internal/helpers/kube/config/storage/storage.go:105-148 | They hold when the service starts over Secrets whose annotations are true |
| SecretStore.SessionSecretsStay | go/authn/internal/stepupsweep/sweep.go:83-86 | No interleaving deletes a session Secret |
| SecretStore.SessionPutLands | go/authn/internal/helpers/kube/config/storage/storage.go:138-147 | For a session credential one of the two calls of `Put` always lands, whatever happens in between |
| SecretStore.BothCallsCanMissIff | go/authn/internal/helpers/kube/config/storage/storage.go:138-147 | Other actors can make both calls of `Put` miss if and only if it replaces a step-up credential: a concurrent step-up may rewrite it, expire and be swept in between |
| SecretStore.VanishedWasRemoved | go/authn/internal/stepupsweep/sweep.go:90-103 | A name that vanishes was taken by a removal of a step-up certificate expired for the grace period |
| Cluster.ApiServer.List | go/authn/internal/helpers/kube/secrets/secret.go:31-45 | A listing holds each Secret of the namespace once, as stored at one instant, other clients acting before it |
| Cluster.ApiServer.Get | go/authn/internal/helpers/kube/secrets/secret.go:14-28 | A read, a missing name or a failed call |
| Cluster.ApiServer.CreateSecret | go/authn/internal/helpers/kube/secrets/secret.go:47-59 | Succeeds exactly on a free name |
| Cluster.ApiServer.ReplaceSecret | go/authn/internal/helpers/kube/secrets/secret.go:100-112 | Without a version it succeeds whenever the name exists |
| Cluster.ApiServer.UpdateSecret | go/authn/internal/helpers/kube/secrets/secret.go:100-112 | With a version it succeeds exactly on what was read |
| Cluster.ApiServer.DeleteSecret | go/authn/internal/stepupsweep/sweep.go:100-103 | With UID and version it deletes exactly what was listed |
| Cluster.ApiServer.IssueSecret | go/authn/internal/certrenewal/renewal.go:310-312 | The library’s full write of a session name, without annotations |
| CredentialPut.Put | go/authn/internal/helpers/kube/config/storage/storage.go:105-148 | Success means this Secret was just stored as asked, failure that nothing of it was; among the others’ steps `Put` takes only its own create or replace, with the four annotations, and every other user’s session credential stays; an identity that cannot be recorded is refused before any call; a session write is lost only to a failed call; alone, no other Secret changes |
| CredentialPut.PutKeyMeans | go/authn/internal/helpers/kube/config/storage/storage.go:111-117 | Where a credential is stored |
| CredentialPut.OtherUsersAreSpared | go/authn/internal/helpers/kube/config/storage/storage.go:111-117 | Users with other converted names, and the user’s other credential, have other Secrets, which a `Put` leaves alone |
| CredentialPut.LoginWriteIsStep | go/authn/internal/helpers/kube/config/storage/storage.go:105-148 | Either write of `Put` is a step of the store and keeps its invariant |
| Interleavings.ActsThen | go/authn/internal/helpers/kube/config/storage/storage.go:138-147 | An actor’s calls one after another are its steps woven into the others’: what links a method to the interleavings |
| Interleavings.ActorsKeepInvariant | go/authn/internal/helpers/kube/config/storage/storage.go:105-148 | Whatever its own steps, an actor among the others keeps the store’s invariant |
| Interleavings.ActorsSpare | go/authn/internal/identitybackfill/backfill.go:113-116 | An actor that writes credentials under some names only leaves every other session credential as the others left it |
| Interleavings.OthersSpare | go/authn/internal/certrenewal/renewal.go:331-335 | Whatever other clients do short of writing the credential, it stays: backfills, syncs, sweeps and time |
| StepUpSweep.SweepOne | go/authn/internal/stepupsweep/sweep.go:83-113 | Among any other clients, one listed Secret is deleted only rightfully, and counted once; the pass does nothing else |
| StepUpSweep.SweepNamespace | go/authn/internal/stepupsweep/sweep.go:79-114 | The same for a whole listing: its own steps are deletes of step-up Secrets there; alone, exactly the expired ones go and the counters say so |
| StepUpSweep.Sweep | go/authn/internal/stepupsweep/sweep.go:61-117 | The same for a pass: the deletions counted are that many removals of certificates expired for the grace period asked for, or else for five minutes, alone exactly those; and every session credential the others spare stays; duplicate and empty namespaces count once or not at all |
| StepUpSweep.GraceIs | go/authn/internal/stepupsweep/sweep.go:67-70 | The grace period asked for, or five minutes |
| StepUpSweep.AccountedMeans | go/authn/internal/stepupsweep/sweep.go:90-103 | Each removal took a certificate expired by then for the grace period asked for, or for five minutes |
| StepUpSweep.SweptMeans | go/authn/internal/stepupsweep/sweep.go:83-103 | Alone, exactly those Secrets go and no other changes |
| StepUpSweep.CountsAre | go/authn/internal/stepupsweep/sweep.go:54-58 | Alone, what the three counters count |
| StepUpSweep.DeleteIsStep | go/authn/internal/stepupsweep/sweep.go:96-103 | A delete judged on an earlier read removes what was read, and is rightful |
| StepUpSweep.PassesCompose | go/authn/internal/stepupsweep/sweep.go:73-115 | Sweeping namespace by namespace is sweeping their union |
| StepUpSweep.SweepIsIdempotent | go/authn/internal/stepupsweep/sweep.go:61-117 | A second pass at the same time deletes nothing and skips the same |
| IdentityBackfill.BackfillOne | go/authn/internal/identitybackfill/backfill.go:86-125 | One listed Secret: stamped, skipped or complete; among any other clients, its own steps only add what that certificate proves |
| IdentityBackfill.BackfillNamespace | go/authn/internal/identitybackfill/backfill.go:81-126 | The same for a listing; alone, exactly the resolvable incomplete Secrets are stamped, and counted |
| IdentityBackfill.RunBackfill | go/authn/internal/identitybackfill/backfill.go:66-130 | The same for a run: under any interleaving it writes nothing but annotations, and every session credential the others spare stays; exactly described when alone |
| IdentityBackfill.StampingCompletes | go/authn/internal/identitybackfill/backfill.go:134-165 | A stamped Secret has both annotations, existing ones keep their values, and nothing but these two is added |
| IdentityBackfill.StrategyIs | go/authn/internal/identitybackfill/backfill.go:169-192 | Which lookups prove which strategy |
| IdentityBackfill.SkippedIff | go/authn/internal/identitybackfill/backfill.go:134-165 | Exactly when a Secret is skipped |
| IdentityBackfill.RunMeans | go/authn/internal/identitybackfill/backfill.go:86-122 | Alone, exactly the session Secrets that lack something and can be stamped change, in their annotations |
| IdentityBackfill.StampIsStep | go/authn/internal/identitybackfill/backfill.go:104-122 | The conditional write is a step of the store: certificate, key and UID stay, and only that Secret changes |
| IdentityBackfill.RunsCompose | go/authn/internal/identitybackfill/backfill.go:75-127 | Running namespace by namespace is running over their union |
| IdentityBackfill.EveryScannedIsCounted | go/authn/internal/identitybackfill/backfill.go:56-60 | Scanned is stamped plus skipped plus already complete |
| IdentityBackfill.SecondRunIsIdle | go/authn/internal/identitybackfill/backfill.go:66-130 | A second run alone stamps none and skips the same Secrets: the first completed all it could resolve |
| RenewalTiming.NewPolicy | go/authn/internal/certrenewal/renewal.go:116-122 | A policy always has a positive duration and a threshold strictly between 0 and 1 |
| RenewalTiming.RenewAtIsInside | go/authn/internal/certrenewal/renewal.go:153-160 | The renewal point lies within the certificate’s window, before its end |
| RenewalTiming.RenewAtIsThreshold | go/authn/internal/certrenewal/renewal.go:153-160 | At the renewal point p/q of the window are over, and not a nanosecond more |
| RenewalTiming.DueIff | go/authn/internal/certrenewal/renewal.go:211-212 | A certificate is due exactly when p/q of its window are over |
| RenewalTiming.SettingsAre | go/authn/internal/certrenewal/renewal.go:116-122 | Usable settings are kept; the defaults are a year and 0.66 |
| RenewalTiming.WaitsAre | go/authn/internal/certrenewal/renewal.go:385-393 | A wait is the time left but at least a minute; a minute after a failure |
| RenewalTiming.PassesAreAMinuteApart | go/authn/internal/certrenewal/renewal.go:170-195 | Pass i starts at least i minutes after the first, so n minutes hold at most n + 1 passes |
| RenewalTiming.AlwaysCovered | go/authn/internal/certrenewal/renewal.go:199-278 | After every pass, however long it took, the stored certificate outlives the failures still allowed |
| RenewalTiming.CertificateNeverLapses | go/authn/internal/certrenewal/renewal.go:170-278 | From the first issuance on, the stored certificate is never expired, until its replacement is stored, if no pass takes longer than d, at most k fail in a row, and each certificate stored leaves room for k rounds of a pass and a minute, and one more pass (with d = 0, more than k minutes after its renewal point and more than k + 1 left), and a round more after its renewal point if its issuance was reported as failed |
| RenewalTiming.RoomIsExact | go/authn/internal/certrenewal/renewal.go:170-278 | Exactly when: a grant outlives k failing passes of length d, and one more, if and only if it leaves that room |
| Renewal.NewRenewer | go/authn/internal/certrenewal/renewal.go:99-135 | A renewer needs a username, and writes under that session name only |
| Renewal.Current | go/authn/internal/certrenewal/renewal.go:284-308 | A missing Secret and an unreadable certificate are alike; a failed read is not |
| Renewal.SyncAnnotations | go/authn/internal/certrenewal/renewal.go:340-383 | Calls nobody when nothing differs; among other clients, its own steps are annotation writes of this Secret, and every session credential they spare stays; alone leaves exactly the merged annotations |
| Renewal.SyncingSettles | go/authn/internal/certrenewal/renewal.go:359-378 | Syncing twice is syncing once; other annotations stay; a Secret without any gets them all |
| Renewal.InOrderIff | go/authn/internal/certrenewal/renewal.go:359-369 | Nothing is written exactly when every wanted annotation is there and right, save an absent groups annotation of a certificate without groups, which reads as in order |
| Renewal.MissingGroupsComeBack | go/authn/internal/certrenewal/renewal.go:359-378 | That annotation stays missing while the certificate stays current, and is back with the next issuance |
| Renewal.SyncIsStep | go/authn/internal/certrenewal/renewal.go:371-382 | The conditional write is a step of the store and keeps every credential |
| Renewal.Annotate | go/authn/internal/certrenewal/renewal.go:313-324 | Reads back whatever is stored by now and syncs that |
| Renewal.IssueCertificate | go/authn/internal/certrenewal/renewal.go:230-278 | Fails exactly when the signer or the write does, or an error is reported of a certificate that was stored, and then waits the retry interval; otherwise stores the certificate and, alone, all its annotations; its own steps are that write and syncs |
| Renewal.RunPasses | go/authn/internal/certrenewal/renewal.go:170-195 | The loop of sleeping and passes follows the timeline pass by pass, whatever other clients do short of writing the credential and however long calls take; so what is stored lasts until the next pass is over when the passes are as `CertificateNeverLapses` asks; issuances that report an error after storing are among them |
| Renewal.Ensure | go/authn/internal/certrenewal/renewal.go:199-227 | Waits at least a minute whatever happens, and its own steps are an issuance and syncs of its own Secret; while nobody else writes the credential, it issues nothing before p/q of the window are over, looks again when they are or a minute later, and is the pass `CertificateNeverLapses` is about |
| CorsHeaders.BytesAre | go/authn/internal/middlewares/cors/utils.go:42-58 | Which bytes a header keeps, and which end it |
| CorsHeaders.CasesAre | go/authn/internal/middlewares/cors/utils.go:42-53 | The two cases of each letter |
| CorsHeaders.CanonicalAt | go/authn/internal/middlewares/cors/utils.go:42-67 | Canonical is upper case at the start and after a dash, else lower |
| CorsHeaders.ParseHeaderList | go/authn/internal/middlewares/cors/utils.go:28-70 | The loop with its buffer and flag is the one-pass scan |
| CorsHeaders.CleanScansCanonically | go/authn/internal/middlewares/cors/utils.go:28-70 | On every string of header bytes, spaces and commas: split, drop empties, canonicalise each |
| CorsHeaders.ReparsingSettles | go/authn/internal/middlewares/cors/utils.go:28-70 | On every string: joining with ", " and re-parsing reaches a fixed point after one round and keeps tokens up to case |
| CorsHeaders.ScanUpToCase | go/authn/internal/middlewares/cors/utils.go:28-70 | On every string: up to case, the non-empty pieces of what is left without stray bytes |
| CorsHeaders.CanonicalIff | go/authn/internal/middlewares/cors/utils.go:28-70 | Exactly when, for every string: the headers are the canonical non-empty pieces of what is left without stray bytes, if and only if no stray byte stands before a letter due a capital (before a header, or after a dash within one) with no header byte in between |
| CorsHeaders.LosesIff | go/authn/internal/middlewares/cors/utils.go:58-67 | The same condition read in one pass: a separator that closes a header restores the capital, a stray byte takes it |
| CorsHeaders.StrayByteSpoilsTheCase | go/authn/internal/middlewares/cors/utils.go:58-67 | An instance: in "! a" the stray byte takes the capital |
| CorsHeaders.StrayByteMayBeHarmless | go/authn/internal/middlewares/cors/utils.go:58-67 | An instance: in "b! a" it ends a header and takes nothing |
| RestAction.Objects.CopyWithEndpoints | go/authn/internal/helpers/restaction/resolver.go:162-204 | Writes only copies, whatever call fails; on success each endpoint is copied in order, the stages renamed, and nothing else of them changed; when no call fails, it succeeds exactly if `Copied` does |
| RestAction.Objects.DeleteWithEndpoints | go/authn/internal/helpers/restaction/resolver.go:207-236 | Deletes each named endpoint once and the RESTAction; meets a missing Secret only if one was missing before |
| RestAction.Objects.LegacyResolve | go/authn/internal/helpers/restaction/resolver.go:112-159 | On success the copies’ names are gone and all else is as before: the state is restored if and only if none was taken. No delete ever meets a missing Secret. A failed call leaves every copy behind. With no failing call it succeeds exactly if the endpoints resolve and the call answers |
| RestAction.HasSecret | go/authn/internal/helpers/restaction/resolver.go:238-245 | Whether the list holds the Secret |
| RestAction.TokenIs | go/authn/internal/helpers/restaction/resolver.go:184-188 | An endpoint’s own token is kept, any other gets the user’s, and no other data changes |
| RestAction.RenamedIs | go/authn/internal/helpers/restaction/resolver.go:173-190 | Stages keep everything but their endpoint’s name, which gets a dash and the user |
| RestAction.OnlyCopiesAreWritten | go/authn/internal/helpers/restaction/resolver.go:173-197 | Copying changes nothing outside the copies’ names, and every copy is there |
| RestAction.CopyingNeeds | go/authn/internal/helpers/restaction/resolver.go:173-197 | Copying succeeds exactly if each endpoint is there or is the copy an earlier stage made |
| RestAction.CopiesHoldTheOriginals | go/authn/internal/helpers/restaction/resolver.go:180-190 | Each copy holds its original’s data, plus the user’s token if it had none, also when stages share an endpoint or read an earlier copy |
| RestAction.RestoredIff | go/authn/internal/helpers/restaction/resolver.go:207-236 | Cleaning up restores the Secrets if and only if no copy’s name was taken |
| RestAction.RetriesRestore | go/authn/internal/helpers/restaction/resolver.go:112-159 | Whatever Secrets and RESTAction copies failed attempts left behind, the first that succeeds ends in the state before them all |
| RestAction.TakenNameIsLost | go/authn/internal/helpers/restaction/resolver.go:180-195 | An older Secret that bears a copy’s name is overwritten, then deleted |
| OidcClaims.StringClaim | go/authn/internal/routes/auth/oidc/support.go:280-290 | Absent and null are not there; anything else but a string is an error |
| OidcClaims.StringListClaim | go/authn/internal/routes/auth/oidc/support.go:294-312 | The same for lists of strings |
| OidcClaims.TruncatedIsTowardZero | go/authn/internal/routes/auth/oidc/support.go:186 | Claim times drop their fraction toward zero |
| OidcClaims.AcceptedIff | go/authn/internal/routes/auth/oidc/idtoken.go:38-70 | An ID token is accepted if and only if issuer, audience, authorized party and expiry are in order, with one minute of skew (OpenID Connect Core 1.0, section 3.1.3.7) |
| OidcClaims.RefusalSaysWhy | go/authn/internal/routes/auth/oidc/idtoken.go:38-70 | Which cause a refusal carries |
| OidcClaims.AcceptanceIsNarrow | go/authn/internal/routes/auth/oidc/idtoken.go:38-70 | One token serves one issuer and one client, and an expired token stays refused |
| OidcClaims.DoLogin | go/authn/internal/routes/auth/oidc/support.go:163-239 | Succeeds exactly when token and, if asked, UserInfo read well; acr, auth time and groups come from their claims of the ID token alone, and user name, name, picture and email from theirs, or from UserInfo’s if the token omits them |
| OidcClaims.UpdateConfig | go/authn/internal/routes/auth/oidc/support.go:337-384 | For every iteration order: succeeds exactly on usable answers, gives the same identity, each field from its own key, and never changes acr, auth time or bearer token, not even on failure |
| OidcClaims.KeysAre | go/authn/internal/routes/auth/oidc/support.go:386-427 | The five keys, and their types |
| OidcClaims.CheckKeys | go/authn/internal/routes/auth/oidc/support.go:386-427 | For every iteration order: accepts exactly the answers `updateConfig` succeeds on that hold no non-null key outside the five |
| OidcLogin.StepUpIsProvedByTheToken | go/authn/internal/routes/auth/oidc/stepup.go:102-119 | A step-up is granted if and only if the ID token’s own acr and auth_time pass, whatever else the identity says |
| OidcLogin.LimitsHold | go/authn/internal/routes/auth/oidc/stepup.go:66-96 | The defaults (5 and 15 minutes) apply where the spec is silent, its own limits where it is not, and no policy in force accepts an empty acr |
| OidcLogin.ImproperAcrs | go/authn/internal/routes/auth/oidc/stepup.go:80-96 | An acr value is refused if it is empty or holds one of 25 space characters |
| OidcLogin.CheckAllowedGroups | go/authn/internal/routes/auth/oidc/login.go:226-236 | Admits everyone if no group is listed, and else exactly the holders of a listed group |
| OidcLogin.ReservedGroupsAdmitNobody | go/authn/internal/routes/auth/oidc/login.go:223-225 | A reserved group in the list admits nobody |
| OidcLogin.CompletedMeans | go/authn/internal/routes/auth/oidc/login.go:156-199 | Who logs in, and with which groups: what the RESTAction’s answer gives, or else the ID token, or UserInfo for the name |
| OidcLogin.Complete | go/authn/internal/routes/auth/oidc/login.go:156-188 | The RESTAction’s part: its answer if all known and well typed, or else the fallback’s |
| OidcLogin.Authenticate | go/authn/internal/routes/auth/oidc/login.go:115-199 | The pipeline: when it succeeds, what the identity is, that acr and auth time are the ID token’s, and what became of the cluster’s objects |
| OidcLogin.SessionLogin | go/authn/internal/routes/auth/oidc/login.go:77-109 | Asks for one certificate, for the preferred user name and the asserted groups without the reserved ones, or for none; answers with it and a token for the same groups; in any interleaving that one write is its only step; alone, succeeds exactly when everything lets it through; a token that cannot be signed leaves the credential stored |
| OidcLogin.StepUpLogin | go/authn/internal/routes/auth/oidc/stepup.go:201-243 | A certificate is asked for only if the validated ID token proves the step-up, for every RESTAction answer; its groups are the asserted ones without the reserved, then krateo:loa:2; it is stored under the step-up name, in any interleaving that write is its only step, and no session credential the others spare changes; alone, no other Secret changes and it is granted exactly when everything lets it through; the token carries the same groups, and no key is answered |
| OidcLogin.StoredForMeans | go/authn/internal/routes/auth/oidc/login.go:88-95 | What is stored for a login, field by field, and where |
| OidcLogin.OneMoreIsLevelled | go/authn/internal/helpers/userinfo/userinfo.go:8-33 | Over whole runs: session requests carry no reserved group, step-up requests exactly krateo:loa:2 |
| LoginAnswer.TokenEndsInTime | go/authn/internal/helpers/encode/success.go:50-64 | A token never outlives the certificate beside it, and otherwise lasts as long as was asked |
| LoginAnswer.Success | go/authn/internal/helpers/encode/success.go:73-118 | Answers nothing if a token is to be signed and cannot be |
| Durations.LimitsAre | go/authn/internal/routes/auth/oidc/stepup.go:112-115 | The longest duration and the zero instant |
| Durations.Sub | go/authn/internal/helpers/encode/success.go:59 | Differences of instants saturate: right unless they exceed a duration |
| UserInfo.ReservedIs | go/authn/internal/helpers/userinfo/userinfo.go:35-38 | Reserved is what begins with krateo:loa: |
| UserInfo.WithoutReserved | go/authn/internal/helpers/userinfo/userinfo.go:42-51 | The loop splits the list into what is kept and what is dropped |
| UserInfo.SplitIsExact | go/authn/internal/helpers/userinfo/userinfo.go:42-51 | The two parts together are the list, told apart by the prefix alone |
| UserInfo.KeptOfConcat | go/authn/internal/helpers/userinfo/userinfo.go:42-51 | The order is kept |
| UserInfo.KeptFixesTheUnreserved | go/authn/internal/helpers/userinfo/userinfo.go:42-51 | Nothing is dropped if and only if nothing is reserved, and splitting again changes nothing |
| UserInfo.DefaultUser.SetGroups | go/authn/internal/helpers/userinfo/userinfo.go:118-120 | Sets the kept groups and remembers the dropped |
| UserInfo.NewDefaultUser | go/authn/internal/helpers/userinfo/userinfo.go:144-152 | An identity built from a source holds no reserved group |
| UserInfo.NewStepUpUser | go/authn/internal/helpers/userinfo/userinfo.go:24-33 | A copy with the level’s group after the others |
| Minting.CheckGroups | go/authn/internal/helpers/kube/config/build.go:175-203 | Admits exactly lists without a separator that hold no reserved group for a session, some for a step-up |
| Minting.GuardedIdentitiesAreMintable | go/authn/internal/helpers/kube/config/build.go:169-203 | It refuses an identity built by `NewDefaultUser` for a separator only, never for a reserved group |
| Minting.Generator.Issue | go/authn/internal/helpers/kube/config/build.go:207-272 | Sends one request, for exactly the user’s groups, or none; stores what was certified, field by field, and writes nothing else; CA and server are the cluster’s, found once; alone, succeeds exactly when everything is available |
| Minting.Generator.Generate | go/authn/internal/helpers/kube/config/build.go:114-159 | Nothing is sent or stored for groups a session may not have; over any run every request stays mintable; the kubeconfig holds what was stored |
| Minting.Generator.GenerateStepUp | go/authn/internal/helpers/kube/config/build.go:161-167 | The same for step-up groups, under the step-up name and for the lifetime asked |

## Left out

- HTTP serving, routing, logging, telemetry, configuration and flags: input, output and wiring.
- Kubernetes clients, leader election, signing request creation and approval: only the create, replace, conditional update and delete behaviour of the store is kept, and a signer that answers or does not.
- X.509, PEM, base64, JSON text and JWT decoding: a certificate is a record with a serial number, or unreadable; JSON is a datatype; a token that does not decode is an absent one.
- RFC 3339 text: an annotation holds the instant it denotes.
- Floating point: the renewal threshold is a fraction p/q with floor, `math.Log2` the exact integer logarithm (they agree below 2^48), a JSON number a real; converting one beyond 64 bits to an integer is not modelled.
- The range of `time.Duration` and `time.Time` outside `checkStepUp`: instants and durations are unbounded there.
- ShortId.Abc.Encode: `math.Log2` on values from 2^48 on, where its rounding can ask for one symbol more than the exact logarithm.
- ShortId.SizeIsLeast: the same; below 2^48, far above the 2^40 milliseconds an id can hold, the two agree.
- A wall clock that runs backwards while Secrets are stored: time in SecretStore only grows.
- Renewal.RunPasses: a login that writes the renewer's own Secret; and the cancellation that ends the loop is the end of the list of passes.
- `Run` of the sweep: a ticker around `Sweep`.
- Secret labels, type, server, CA and proxy fields, and annotations of other parties beyond being kept.
- SecretStore.EveryInterleavingKeepsInvariant: the actors are the five that write credential Secrets; a human or another controller that edits them freely is not one of them.
- RestAction.Objects.LegacyResolve: no other client writes the copied objects meanwhile; concurrent logins of one user share copy names and are not covered.
- RestAction.Objects.CreateOrUpdateSecret: object versions, since alone an update never conflicts.
- UserInfo.DefaultUser.constructor: nil and empty slices are the same.
- OidcLogin.Authenticate: discovery and the lookup of the OIDCConfig and its client secret are one optional answer, and so are the token exchange and PKCE.
- LoginAnswer.Success: of the answer only data, user name, groups and token; signing takes no time after its duration was decided.
- Minting.Generator.Generate: of the kubeconfig only user, certificate, key, CA and server.
- Basic, LDAP, OAuth and ServiceAccount logins, JWKS, `/strategies` and status tables: short branches and lookups, which end in the same `Generate`.
- Password hashing and the timing of comparisons: not expressible here.
