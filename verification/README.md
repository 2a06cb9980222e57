# Verification of slyng's decision logic

A Dafny model of the parts of slyng where a wrong branch would be hard to notice:

- **Permissions** (`Permissions`, `PermissionCascade`, `PermissionPrecedence`, `PermissionFold`,
  `RowOrder`): the six-layer allow/deny cascade as a plain scan of all rows, the stored row that decides
  each bit, and the bucketed fold that refines the scan.
- **Subscription** (`RecordIds`, `ChannelTopics`, `MemberAccess`, `MemberAccessTables`): a whole SUBSCRIBE
  frame authorised in one batch, with reads that may fail, measured against the pointwise rule and the
  stored tables.
- **Gateway** (`GatewayModel`, `GatewayRuns`, `GatewayPictures`, `GatewayFrames`,
  `ChatGatewayService`): the WebSocket gateway as a state machine over three maps and a log of sent
  frames; the class's handlers are proved against the machine's steps, and the properties are about all
  runs.
- **Root keys** (`Encoding`, `Rotation`, `RotationLaws`, `RotationStoreService`): multibase and base58btc
  written out, DIDs, rotation statements, chain validation, and the rotation table.
- **Identity bundles** (`LegacyDigest`, `Bundle`, `BundleExport`, `Ingest`): export, import
  verification, the version-1 digest stream, and record ingestion, up to the round trip from a rotated
  identity to its restored chain.
- **Ordering** (`Ordering`, `ChannelOrder`, `CategoryOrder`): positions over whole histories.
- **Tokens and folders** (`AuthTokens`, `Folders`): single-use tokens with timed eviction, and the
  guarded folder walks.

`Prelude` holds the option and result types and the array operations (`filter`, `map`, the stable
`sort`) that the services lean on, `Histories` the induction over runs of operations. Library code
(Ed25519 of RFC 8032, JSON canonicalisation of RFC 8785, RFC 3339 timestamps, SHA-256, JSON, HMAC,
UTF-8) appears as functions inside a parameter; the laws a lemma needs of them are its own `requires`,
and `RotationLaws` shows that those of the signature library do not contradict each other. Clocks,
random values and the outcome of database reads are parameters too.

Behaviour of the code that its comments do not mention, or say otherwise; the model follows the code:

- Soft-deleted roles are filtered out of layer 1, yet overrides aimed at one that is still held go on
  applying (`RowOrder.DeletedRoleOverridesStillCount`).
- READY lists an invisible user with status offline where an offline one is not listed at all, and
  shows its custom text and emoji (`GatewayRuns.ReadyGivesInvisibleAway`).
- A socket that identifies again under another DID, or whose user record fails to load after the user
  id was assigned, leaves the gateway's maps in disagreement (`GatewayRuns.StepKeepsAgreement`); the
  second also leaves the socket without a snapshot (`GatewayPictures.FailedReadLeavesNoPicture`).
- A channel reorder compares the category argument as it was given, so a string without a colon, the
  empty one included, is rewritten on every call (`ChannelOrder.ReorderAgainWritesNothing`).
- State tokens are remembered as strings, so a second spelling of a signature that decodes to the same
  bytes makes a payload acceptable again (`AuthTokens.PayloadIsSingleUse`).
- An eviction walks the registered sockets only, so it misses a socket whose user record failed to load:
  that socket keeps its topics and goes on hearing them (`GatewayRuns.EvictionMissesUnregisteredSockets`).
- A reorder that repeats an id can put two other rows on one position (`Ordering.RepeatedIdsCollide`).
  The exact condition for such lists, `Ordering.LandApart`, is the outcome of the writes in closed form;
  the one condition on the list alone is that it has no repeats, and it is sufficient only.
- A state token dated more than a minute into the future outlives its replay record
  (`AuthTokens.FutureTokenIsReplayed`).

`dafny verify dfyconfig.toml` checks the whole project.

## Model

| member | source | states |
|---|---|---|
| RecordIds.EncodeDecode | packages/ts/types/src/codecs.ts:22-28 | Passing a string through the codec gives it back exactly when it holds a colon; any other string gains one and so matches no row |
| RecordIds.DecodeEncode | packages/ts/types/src/codecs.ts:22-28 | A simple record link survives the wire if and only if its table name holds no colon |
| Permissions.LastWriterWins | apps/slyng/api/src/common/permission-fold.ts:106-111 | After any list of allow/deny entries a bit stands exactly when the last entry that mentions it allows it, or none mentions it and it stood before |
| PermissionCascade.ChannelBitIsLastWord | apps/slyng/api/src/common/permission-fold.ts:225-254 | A channel grants a bit exactly when the last applied role or override, over all six layers, that mentions the bit allows it |
| PermissionCascade.UnscopedChannelAnswersAsCategory | apps/slyng/api/src/common/permission-fold.ts:228-269 | A channel without channel-scoped rows answers as its category does |
| PermissionPrecedence.RoleLayerSays | apps/slyng/api/src/common/permission-fold.ts:126-137 | Layer 1 on the columns: of the live roles that are held or default and mention the bit, the highest decides, the later of two that tie; the legacy mask counts only without an allow mask |
| PermissionPrecedence.RoleRowsSay | apps/slyng/api/src/common/permission-fold.ts:184-213 | Layers 3 and 4 on the columns: of the scope's rows for a held or default role that mention the bit, the one whose role stands highest decides |
| PermissionPrecedence.UserRowSays | apps/slyng/api/src/common/permission-fold.ts:197-206 | Layers 2, 5 and 6 on the columns: the first row for the user in the scope decides, if it mentions the bit |
| PermissionPrecedence.RolesGrantAdministratorByColumns | apps/slyng/api/src/common/permission-fold.ts:139-142 | The early bypass is taken exactly when the highest role that mentions ADMINISTRATOR allows it |
| PermissionPrecedence.ServerPrecedence | apps/slyng/api/src/common/permission-fold.ts:215-218 | A server bit is decided by the user's server row, then by the roles; by roles alone if those grant ADMINISTRATOR |
| PermissionPrecedence.CategoryPrecedence | apps/slyng/api/src/common/permission-fold.ts:255-269 | A category bit is decided by the user's row there, the highest role row there, the user's server row, the roles, the first of these that mentions it |
| PermissionPrecedence.ChannelPrecedence | apps/slyng/api/src/common/permission-fold.ts:228-254 | A channel bit is decided by the first that mentions it of: the user's channel row, its category row, the highest channel role row, the highest category role row, the user's server row, the highest role |
| PermissionFold.FoldRoles | apps/slyng/api/src/common/permission-fold.ts:130-137 | The role loop computes layer 1 of the plain scan: live roles, default or held, lowest position first |
| PermissionFold.IndexRoles | apps/slyng/api/src/common/permission-fold.ts:146-152 | The two indexes answer as a scan of the live roles does, absent roles at position 0 |
| PermissionFold.PlaceStep | apps/slyng/api/src/common/permission-fold.ts:184-206 | Placing one more row keeps every bucket equal to its own scope's share of all rows seen so far, in row order, first match for user rows |
| PermissionFold.SortBuckets | apps/slyng/api/src/common/permission-fold.ts:210-213 | Each role bucket ends up stably sorted by its target's position |
| PermissionFold.ResolvePermissionFold | apps/slyng/api/src/common/permission-fold.ts:123-271 | The bucketed fold answers every server, channel and category question as a plain scan of all rows, layer by layer; it fails exactly when the override read fails and roles alone do not grant ADMINISTRATOR; `hasChannelScopedOverrides` is true exactly when some category or channel row concerns the member |
| PermissionFold.Fold.ForChannel | apps/slyng/api/src/common/permission-fold.ts:228-254 | The replay over the buckets computes layers 3 to 6 on top of the server mask, in that order |
| PermissionFold.Fold.ForCategory | apps/slyng/api/src/common/permission-fold.ts:255-269 | The replay over the buckets computes layers 3 and 5 on top of the server mask |
| PermissionFold.BucketsRefine | apps/slyng/api/src/common/permission-fold.ts:215-271 | Buckets that hold each scope's layer make a fold that refines the plain cascade |
| PermissionFold.UnscopedFoldIsConstant | apps/slyng/api/src/common/permission-fold.ts:219-223 | With `hasChannelScopedOverrides` false, one mask answers every channel and every category |
| Sequences.StableSortIsStable | apps/slyng/api/src/common/permission-fold.ts:208-213 | The sort leaves ascending keys and keeps the order of rows with equal keys |
| Sequences.SortForgetsOrder | apps/slyng/api/src/common/permission-fold.ts:126-128 | Where equal keys mean equal rows, the sorted result is the same for any input order |
| RowOrder.ScopeRowsHaveOwnPositions | apps/slyng/api/src/db/db.service.ts:116 | The unique index, distinct live positions and live targets tell the overrides of one scope apart by position |
| RowOrder.RowOrderDoesNotMatter | apps/slyng/api/src/common/permission-fold.ts:126-213 | With distinct live positions, live targets and the unique index, any permutation of role rows and override rows gives the same server, channel and category masks |
| RowOrder.SharedPositionMakesOrderMatter | apps/slyng/api/src/common/permission-fold.ts:126-137 | Two live roles at one position can make row order decide |
| RowOrder.DeletedRoleOverridesStillCount | apps/slyng/api/src/common/permission-fold.ts:126-128 | An override aimed at a soft-deleted role that is still held goes on counting among whatever other overrides there are, sorted as if at position 0 |
| RowOrder.DeletionIsInert | apps/slyng/api/src/common/permission-fold.ts:184-213 | Dropping the overrides of roles that are not live changes nothing in a scope if and only if every override there that reaches the member targets a live role |
| RowOrder.DeadRowsDropOut | apps/slyng/api/src/common/permission-fold.ts:184-213 | Without the overrides of roles that are not live, a channel's rows over layers 3 to 6 are its rows with just those left out, in the same order |
| RowOrder.DeletionAndTheAnswer | apps/slyng/api/src/common/permission-fold.ts:228-254 | Deletion moves a bit of a channel's answer if and only if the last word on it changes with the rows of dead roles left out; it is inert for every bit that those rows do not mention |
| RowOrder.DeletedTargetsMakeOrderMatter | apps/slyng/api/src/common/permission-fold.ts:188-211 | Overrides aimed at two deleted roles tie at position 0, so row order decides between them |
| ChannelTopics.GroupsStep | apps/slyng/api/src/common/channel-topics.ts:106-132 | One more requested id, seen before or not, keeps every bucket equal to its scope's distinct ids in request order |
| ChannelTopics.GroupChannelTopicsByServer | apps/slyng/api/src/common/channel-topics.ts:84-135 | Every distinct requested id stands, in request order, in the one bucket of its row's scope: unresolved, unscoped, or its server's |
| MemberAccess.BatchScope | apps/slyng/api/src/common/channel-topics.ts:95-111 | A hit among the rows fetched for a frame is the row stored under exactly the requested string |
| MemberAccess.FoldForServer | apps/slyng/api/src/auth/member-access.service.ts:143-164 | A fold is returned exactly for unbanned members, reads READ_MESSAGES as ownership or the plain cascade do, and fails exactly when a read it really performs fails |
| MemberAccess.ReadableConversations | apps/slyng/api/src/auth/member-access.service.ts:200-218 | Conversation topics are granted by participation alone, and none when that read fails |
| MemberAccess.CanReadChannels | apps/slyng/api/src/auth/member-access.service.ts:184-254 | The batch answers every id as the pointwise rule does, minus exactly the scopes whose own reads fail; only the first row read loses the whole frame |
| MemberAccess.BatchIsPointwise | apps/slyng/api/src/auth/member-access.service.ts:166-245 | With all reads succeeding an id is granted exactly when it is granted alone; failures remove exactly their scopes; order, repetition and unknown ids change nothing; one server's faults stay there |
| MemberAccessTables.GrantedByTheTables | apps/slyng/api/src/auth/member-access.service.ts:184-254 | A topic is granted exactly when requested, its row stored under that id and not trashed, and the user takes part in the conversation, or is an unbanned member of its server and owner or holder of READ_MESSAGES or ADMINISTRATOR there |
| MemberAccessTables.GrantedUnderFaults | apps/slyng/api/src/auth/member-access.service.ts:143-164 | A failed read takes away exactly the answers that rest on it, read by read; an owner needs neither roles nor overrides, and a role-granted ADMINISTRATOR no overrides |
| MemberAccessTables.OthersDoNotMatter | apps/slyng/api/src/auth/member-access.service.ts:196-208 | Other users' participations, memberships, bans and ownerships move no answer, under any faults |
| MemberAccessTables.ServerTopicsAreForMembers | apps/slyng/api/src/gateway/chat.gateway.ts:502-511 | The topic of an existing server is granted to unbanned members only under any faults, and to all of them without |
| GatewayRuns.StepKeepsAgreement | apps/slyng/api/src/gateway/chat.gateway.ts:339-416 | A handler keeps `clients`, `userSockets` and `presences` in agreement if and only if it does not re-identify a socket under another DID, load a failing user record for a socket not yet that DID's, or reconnect an identified socket |
| GatewayRuns.RunKeepsAgreement | apps/slyng/api/src/gateway/chat.gateway.ts:64-68 | Over every run of such handlers, `userSockets` is exactly a scan of `clients`, never empty, and `presences` has the same keys |
| GatewayRuns.RunKeepsAgreementExactly | apps/slyng/api/src/gateway/chat.gateway.ts:64-68 | The maps agree throughout a run if and only if every handler of the run is such a one |
| GatewayRuns.AgreementMeans | apps/slyng/api/src/gateway/chat.gateway.ts:70-75 | `emitToUser` reaches exactly the sockets a scan of all clients would, and a user is publicly offline exactly when without socket or invisible |
| GatewayRuns.StepIsDiscreet | apps/slyng/api/src/gateway/chat.gateway.ts:777-810 | No frame a handler sends marks anyone but its reader invisible |
| GatewayRuns.RunIsDiscreet | apps/slyng/api/src/gateway/chat.gateway.ts:382-411 | Over every run whatsoever, no READY and no presence broadcast carries the status `invisible` of anyone but its reader |
| GatewayRuns.BroadcastHidesInvisible | apps/slyng/api/src/gateway/chat.gateway.ts:777-810 | A presence broadcast looks to others as if the user had just gone offline if and only if it is invisible |
| GatewayRuns.ReadyGivesInvisibleAway | apps/slyng/api/src/gateway/chat.gateway.ts:395-402 | READY is to another user what it would be with the user offline only if the user is offline: being invisible shows as an entry with status offline, which no other presence gives, and with the custom text |
| GatewayRuns.EvictionStrips | apps/slyng/api/src/gateway/chat.gateway.ts:518-527 | In any state eviction takes exactly the topics off the sockets registered for the user and touches nothing else; the user is off them if and only if each of its clients is registered or holds none of them |
| GatewayRuns.AgreedEvictionStrips | apps/slyng/api/src/gateway/chat.gateway.ts:518-527 | Where the three maps agree, that takes the topics off all of the user's clients and leaves every other client untouched |
| GatewayRuns.EvictionMissesUnregisteredSockets | apps/slyng/api/src/gateway/chat.gateway.ts:361-367 | The condition fails in a run: a socket whose IDENTIFY loaded no user record subscribes, is missed by the eviction, and goes on hearing the topic |
| GatewayRuns.StepKeepsStripped | apps/slyng/api/src/gateway/chat.gateway.ts:425-454 | In any state, a handler lets a stripped user back on the topics if and only if it is a SUBSCRIBE or voice join granting one, or an IDENTIFY as the user on a socket that holds one |
| GatewayRuns.RunKeepsStripped | apps/slyng/api/src/gateway/chat.gateway.ts:769-775 | In any run without such a handler a stripped user stays off the topics and hears nothing on them |
| GatewayRuns.RunKeepsStrippedExactly | apps/slyng/api/src/gateway/chat.gateway.ts:769-775 | A stripped user stays stripped throughout a run if and only if the run has no such handler |
| GatewayRuns.EvictedHearsNothing | apps/slyng/api/src/gateway/chat.gateway.ts:513-541 | After an eviction in any state where the user's clients were registered or held none of the topics, no event on them reaches the user in any later run without such a handler |
| GatewayPictures.StepKeepsPictures | apps/slyng/api/src/gateway/chat.gateway.ts:128-160 | In any state, no handler leaves an open socket with a stale last word about anyone's status, unless it is an IDENTIFY that assigned a new user id on an open socket, failed to load the user record, and the socket was anonymous or the old or new user is invisible |
| GatewayPictures.OrderlyIsInformed | apps/slyng/api/src/gateway/chat.gateway.ts:361-367 | Every handler that keeps the three maps in agreement is harmless to the pictures too |
| GatewayPictures.UninformedBreaksPictures | apps/slyng/api/src/gateway/chat.gateway.ts:361-367 | Each such IDENTIFY does leave a wrong picture, or none |
| GatewayPictures.AnonymousIsUntold | apps/slyng/api/src/gateway/chat.gateway.ts:777-810 | A socket that has not identified since it was opened has been told nothing about anyone |
| GatewayPictures.PicturesStayTrue | apps/slyng/api/src/gateway/chat.gateway.ts:395-411 | Over every run from boot without such an IDENTIFY, the last status any connected client was told of any user is the one it should see now |
| GatewayPictures.PicturesStayTrueExactly | apps/slyng/api/src/gateway/chat.gateway.ts:339-416 | With a socket of its own for each connection, the pictures are right throughout a run if and only if the run has no such IDENTIFY |
| GatewayPictures.FailedReadLeavesNoPicture | apps/slyng/api/src/gateway/chat.gateway.ts:361-367 | The shortest failing run: a first IDENTIFY whose user record fails to load leaves its socket without any picture |
| GatewayFrames.FramesReachOpenSocketsOnly | apps/slyng/api/src/gateway/chat.gateway.ts:812-813 | No handler hands a frame to a socket that is not open, or to another user than it names |
| GatewayFrames.TopicEventReaches | apps/slyng/api/src/gateway/chat.gateway.ts:769-775 | A topic event reaches exactly the open subscribers but for the excluded user's |
| GatewayFrames.UserEventReaches | apps/slyng/api/src/gateway/chat.gateway.ts:743-749 | A user event reaches exactly the user's open registered sockets |
| GatewayFrames.RefusalsAreReported | apps/slyng/api/src/gateway/chat.gateway.ts:346-359 | A refused IDENTIFY changes nothing and tells the socket why |
| GatewayFrames.FirstIdentifyRestoresPresence | apps/slyng/api/src/gateway/chat.gateway.ts:382-412 | The first IDENTIFY of a user restores the saved status, text and emoji, greets the socket and announces the user; one saved as invisible comes back unseen |
| GatewayFrames.LaterIdentifyJoins | apps/slyng/api/src/gateway/chat.gateway.ts:371-407 | A later socket keeps the presences, is greeted alone, and nobody else is told anything |
| GatewayFrames.SnapshotIsComplete | apps/slyng/api/src/gateway/chat.gateway.ts:396-402 | READY lists every known presence with text and emoji, invisible others as offline, oneself truthfully |
| GatewayFrames.PresenceUpdateTakesEffect | apps/slyng/api/src/gateway/chat.gateway.ts:577-587 | The requested status, text and emoji take effect and are announced; what is left out stays and an empty text clears |
| GatewayFrames.UnsubscribeTakesOff | apps/slyng/api/src/gateway/chat.gateway.ts:457-463 | UNSUBSCRIBE takes the socket off exactly the listed topics and sends nothing |
| GatewayFrames.StepKeepsOff | apps/slyng/api/src/gateway/chat.gateway.ts:425-463 | A socket gets back on a topic if and only if a handler grants it one |
| GatewayFrames.UnsubscribedHearsNothing | apps/slyng/api/src/gateway/chat.gateway.ts:769-775 | A socket off the topics hears nothing on them in any run without such a grant |
| GatewayFrames.VoiceJoinIsAnnounced | apps/slyng/api/src/gateway/chat.gateway.ts:682-711 | A voice join is announced on the server's topic to everyone but the joining user, and answered to the socket |
| GatewayFrames.EvictionIsAnnounced | apps/slyng/api/src/gateway/chat.gateway.ts:529-540 | An eviction out of a voice channel among the topics is announced to those who still listen, any other is silent |
| GatewayFrames.DisconnectIsAnnounced | apps/slyng/api/src/gateway/chat.gateway.ts:128-160 | A user's last disconnect is announced as offline to everyone and on the left server's topic, any other is silent |
| ChatGatewayService.ChatGateway.constructor | apps/slyng/api/src/gateway/chat.gateway.ts:64-68 | The gateway boots with empty maps |
| ChatGatewayService.ChatGateway.Send | apps/slyng/api/src/gateway/chat.gateway.ts:812-813 | A frame is handed over exactly when the socket is open |
| ChatGatewayService.ChatGateway.BroadcastToChannel | apps/slyng/api/src/gateway/chat.gateway.ts:769-775 | An event goes to exactly the open subscribers of the topic, except the excluded user's |
| ChatGatewayService.ChatGateway.BroadcastPresenceUpdate | apps/slyng/api/src/gateway/chat.gateway.ts:777-810 | Every open identified client gets the public form, the user's own sockets the true one |
| ChatGatewayService.ChatGateway.EmitToUser | apps/slyng/api/src/gateway/chat.gateway.ts:743-749 | An event goes to the open sockets registered for the user |
| ChatGatewayService.ChatGateway.HandleConnection | apps/slyng/api/src/gateway/chat.gateway.ts:105-110 | A connection registers an anonymous client; nothing else changes |
| ChatGatewayService.ChatGateway.HandleIdentify | apps/slyng/api/src/gateway/chat.gateway.ts:339-416 | IDENTIFY takes the state and the frames to those of the Identify step, error branches included |
| ChatGatewayService.ChatGateway.AdmitSocket | apps/slyng/api/src/gateway/chat.gateway.ts:371-412 | The first socket of a user restores the presence, then READY, then the broadcast; later sockets get READY only |
| ChatGatewayService.ChatGateway.HandlePresenceUpdate | apps/slyng/api/src/gateway/chat.gateway.ts:569-587 | A presence update patches the record field by field and broadcasts the result |
| ChatGatewayService.ChatGateway.HandleSubscribe | apps/slyng/api/src/gateway/chat.gateway.ts:425-454 | SUBSCRIBE adds exactly the topics that the batch and the server check grant |
| ChatGatewayService.ChatGateway.HandleUnsubscribe | apps/slyng/api/src/gateway/chat.gateway.ts:457-463 | UNSUBSCRIBE removes exactly the listed topics |
| ChatGatewayService.ChatGateway.HandleVoiceJoin | apps/slyng/api/src/gateway/chat.gateway.ts:675-712 | A voice join subscribes to the channel and its server, then announces it there |
| ChatGatewayService.ChatGateway.EvictUserFromServer | apps/slyng/api/src/gateway/chat.gateway.ts:518-541 | The nested loops strip exactly the evicted topics and announce the voice leave |
| ChatGatewayService.ChatGateway.HandleDisconnect | apps/slyng/api/src/gateway/chat.gateway.ts:128-160 | Only a user's last socket takes the presence away and announces offline |
| ChatGatewayService.SubscribeFollowsTheCascade | apps/slyng/api/src/gateway/chat.gateway.ts:443-446 | A SUBSCRIBE never lets a socket into a channel its user may not read, under any faults, and without faults into every requested one it may |
| ChatGatewayService.SubscribeAsksForMembership | apps/slyng/api/src/gateway/chat.gateway.ts:447-453 | A SUBSCRIBE keeps the topics held, grants none unasked, and lets into an existing server's topic its unbanned members only |
| Encoding.RebaseInverts | packages/rust/syr-crypto-core/src/encoding.rs:12-14 | Base conversion that keeps leading zeros inverts itself, for every digit string and pair of bases |
| Encoding.DecodeEncodeBase58 | packages/rust/syr-crypto-core/src/encoding.rs:12-14 | Base58btc decoding inverts encoding for every byte string |
| Encoding.EncodeDecodeBase58 | packages/rust/syr-crypto-core/src/encoding.rs:27-29 | A base58btc string is the only spelling of its bytes |
| Encoding.DecodeEncodeMultibase | packages/rust/syr-crypto-core/src/encoding.rs:12-30 | Multibase decoding inverts encoding for every byte string |
| Encoding.EncodeDecodeMultibase | packages/rust/syr-crypto-core/src/encoding.rs:17-30 | Where multibase decoding succeeds it is injective |
| Encoding.DecodeEncodeRoot | packages/rust/syr-crypto-core/src/encoding.rs:33-52 | Decoding a public key inverts the multicodec spelling of every key |
| Encoding.PublicKeySpellings | packages/rust/syr-crypto-core/src/encoding.rs:33-52 | Every key has exactly two accepted spellings, with the multicodec prefix and without |
| Encoding.DerivedDidNamesItsKey | packages/rust/syr-crypto-core/src/encoding.rs:85-90 | A derived DID names its key, in the canonical spelling |
| Encoding.GenesisCanonicalisation | packages/rust/syr-crypto-core/src/rotation.rs:64-75 | Canonicalising the genesis key is idempotent, keeps the key, and keeps the DID exactly when it was already spelled with the multicodec prefix |
| Rotation.SeqIsPosition | packages/rust/syr-crypto-core/src/rotation.rs:170-170 | Below 2^32 statements the expected number is the 1-based position |
| Rotation.CheckHop | packages/rust/syr-crypto-core/src/rotation.rs:169-205 | One round of the loop accepts exactly the good hops, and otherwise names the first check that fails |
| Rotation.VerifyRotationChain | packages/rust/syr-crypto-core/src/rotation.rs:159-209 | Accepts exactly the chains that meet the declarative number / DID / link / signature / time predicate and whose head decodes, and returns that head; a rejection names the first bad hop and its first failing check |
| Rotation.ChainsByTheirFields | packages/rust/syr-crypto-core/src/rotation.rs:147-158 | A chain below 2^32 statements is valid exactly when each is numbered by its place, names the DID, links to its predecessor, carries a 64-byte signature over its five fields under the key it retires, and is dated no earlier |
| Rotation.TimesNeverGoBack | packages/rust/syr-crypto-core/src/rotation.rs:199-206 | Times never go back in an accepted chain, over any distance |
| Rotation.BackdatedStatementIsRejected | packages/rust/syr-crypto-core/src/rotation.rs:200-206 | A statement dated before the head extends no chain, however well signed |
| Rotation.PrefixIsAccepted | packages/rust/syr-crypto-core/src/rotation.rs:169-208 | Acceptance is prefix-closed: a prefix's head decodes because it signed the next statement |
| Rotation.ForkIsEquivocation | packages/rust/syr-crypto-core/src/rotation.rs:183-198 | Two chains valid for one DID extend one another, or their first difference is two statements of one number and previous root that the same retiring key signed |
| Rotation.StatementsAreRecorded | packages/rust/syr-crypto-core/src/rotation.rs:124-140 | Where presented statements verify only if their payload was signed, every statement of a valid chain was signed by the holder of the key it retires |
| Rotation.HistoryIsLinear | packages/rust/syr-crypto-core/src/rotation.rs:183-198 | Where presented statements verify only if signed, and no key signs two payloads, all valid chains of a DID agree wherever both reach |
| Rotation.HonestHistoryIsRecorded | packages/rust/syr-crypto-core/src/rotation.rs:92-121 | Every chain built by honest rotations over keys that differ meets both of those conditions, with any library |
| Rotation.StatementIsAuthorised | packages/rust/syr-crypto-core/src/rotation.rs:92-140 | A created statement verifies under the key that signed it and carries the requested fields |
| Rotation.HonestRotation | packages/rust/syr-crypto-core/src/rotation.rs:92-121 | One more honest statement keeps any valid chain acceptable and moves its head to the new key |
| Rotation.BuiltChainVerifies | packages/rust/syr-crypto-core/src/rotation.rs:92-121 | Any number of honest rotations from a derived DID, at non-decreasing times, verifies and returns the newest key |
| Rotation.EmptyChainIsGenesis | packages/rust/syr-crypto-core/src/rotation.rs:163-166 | Without rotations the root is the key that the DID names |
| RotationStoreService.RotationStore.AppendRotation | apps/slyng/api/src/idp/idp-rotation.repository.ts:56-103 | One transaction: statement and re-wrapped seed are both stored, or, when (did, seq) is taken, neither is |
| RotationStoreService.RotationStore.IngestRotationChain | apps/slyng/api/src/idp/identity-import.service.ts:154-174 | The import loop performs exactly the appends of the bundle's own-DID statements and never touches a seed |
| RotationStoreService.IngestedRows | apps/slyng/api/src/idp/identity-import.service.ts:154-174 | Stored rows win, the chain fills the gaps, and nothing else is written |
| RotationStoreService.IngestionTakesOwnStatements | apps/slyng/api/src/idp/identity-import.service.ts:155-157 | Of any chain, the new rows are its own-DID statements under their own numbers, and no stored row changes |
| RotationStoreService.IngestionRestoresTheChain | apps/slyng/api/src/idp/identity-import.service.ts:154-174 | After ingestion the ordered read returns exactly the bundle's chain if and only if no stored row disagreed with it |
| RotationStoreService.PrefixAgrees | apps/slyng/api/src/idp/idp-rotation.repository.ts:36-42 | A table that holds a prefix of the chain does not disagree with it |
| RotationStoreService.IngestionIsIdempotent | apps/slyng/api/src/idp/identity-import.service.ts:147-150 | Ingesting any chain again changes nothing, whatever the table holds |
| RotationStoreService.RestoredChainVerifies | apps/slyng/api/src/idp/identity-import.service.ts:147-150 | Restored over a prefix of itself, an accepted chain verifies in its new home with the same root, and all other DIDs' chains stay |
| LegacyDigest.SortNames | apps/slyng/api/src/idp/identity-import.service.ts:547-547 | The names come out once each, in ascending order |
| LegacyDigest.DigestStreamV1 | apps/slyng/api/src/idp/identity-import.service.ts:545-558 | The loop feeds exactly the length-prefixed frames of the hashed files in name order, and throws exactly when a length does not fit 32 bits |
| LegacyDigest.FramesParse | apps/slyng/api/src/idp/identity-import.service.ts:550-555 | A frame in front of anything can be read back in one way only |
| LegacyDigest.StreamInjective | apps/slyng/api/src/idp/identity-import.service.ts:545-558 | Different sequences of files never make the same stream: lengths fix every boundary |
| LegacyDigest.DigestStreamIsDetermined | apps/slyng/api/src/idp/identity-import.service.ts:545-558 | The stream depends on the file map alone |
| LegacyDigest.DigestStreamIsInjective | apps/slyng/api/src/idp/identity-import.service.ts:538-544 | Equal streams come from file maps that are equal outside `manifest.json` and `export.sig` |
| LegacyDigest.DigestIgnoresManifestAndSignature | apps/slyng/api/src/idp/identity-import.service.ts:548-548 | The manifest and the detached signature do not enter the stream |
| LegacyDigest.FrameLayout | apps/slyng/api/src/idp/identity-import.service.ts:549-555 | Name length and content length come first, four bytes each and most significant first, then name and contents |
| LegacyDigest.PrefixesComeFirst | apps/slyng/api/src/idp/identity-import.service.ts:547-547 | A proper prefix sorts before the longer name |
| LegacyDigest.FirstDifferenceDecides | apps/slyng/api/src/idp/identity-import.service.ts:547-547 | Otherwise the first differing character decides |
| LegacyDigest.SurrogatesComeBeforePrivateUse | apps/slyng/api/src/idp/identity-import.service.ts:547-547 | Characters outside the basic plane sort by their surrogates |
| Bundle.HashFilesExceptManifest | apps/slyng/api/src/idp/identity-import.service.ts:518-522 | The recomputed map holds the hash of every file but the manifest, and nothing else |
| Bundle.AssertFilesMatch | apps/slyng/api/src/idp/identity-import.service.ts:514-536 | Crossing off succeeds exactly when declared and actual maps are equal, and otherwise says truthfully whether a file is missing, different or undeclared |
| Bundle.ResolveBundleRootKey | apps/slyng/api/src/idp/identity-import.service.ts:330-368 | A root is resolved exactly when the bundle is marked signed or unsigned but not both, the embedded array, if any, is a chain that resolves, and a signature names that root; a rejection says which failed |
| Bundle.ParseAndVerifyV2 | apps/slyng/api/src/idp/identity-import.service.ts:217-275 | Accepts exactly the authentic version-2 archives; a rejection names the first check that fails |
| Bundle.ParseAndVerifyV1 | apps/slyng/api/src/idp/identity-import.service.ts:288-319 | Accepts exactly the intact version-1 archives, flagged as legacy, with the genesis key and no chain |
| Bundle.ParseAndVerify | apps/slyng/api/src/idp/identity-import.service.ts:193-276 | An upload is accepted exactly when it is authentic, as the bundle that authenticity describes |
| Bundle.AuthenticIsUnique | apps/slyng/api/src/idp/identity-import.service.ts:267-275 | One archive parses to at most one bundle |
| Bundle.SignedMeans | apps/slyng/api/src/idp/identity-import.service.ts:246-275 | `signed` means exactly a version-2 manifest with a signature block, which names the root and whose 64-byte signature verifies under it over this very manifest |
| Bundle.UnsignedMeans | apps/slyng/api/src/idp/identity-import.service.ts:334-339 | `unsigned` means exactly a version-2 manifest marked so and without a block |
| Bundle.LegacyMeans | apps/slyng/api/src/idp/identity-import.service.ts:305-318 | `legacy-unverified` means exactly a version-1 manifest; its digest matches, the chain is empty and the root the DID's own key |
| Bundle.AcceptedMeans | apps/slyng/api/src/idp/identity-import.service.ts:193-245 | An accepted archive is within the limits, under a well-formed DID; its manifest maps exactly the other files to their hashes, and its root is the embedded chain's head or the DID's key |
| BundleExport.ExportIdentity | apps/slyng/api/src/idp/identity-export.service.ts:68-251 | An export fails exactly for a missing account or identity, a missing or wrong password, each named, or a stored chain that does not verify; otherwise the archive is the content files plus a manifest that covers all of them, signed as custody implies |
| BundleExport.ContentIsComplete | apps/slyng/api/src/idp/identity-export.service.ts:117-194 | No later file overwrites a record file, the profile or the identity document |
| BundleExport.AssetsAreComplete | apps/slyng/api/src/idp/identity-export.service.ts:184-194 | Every readable asset stands under its key, and the asset index is there |
| BundleExport.NothingElseIsExported | apps/slyng/api/src/idp/identity-export.service.ts:117-194 | The archive holds nothing but the record files, the profile, the identity document, the readable assets and their index |
| BundleExport.ExportedIdentityReads | apps/slyng/api/src/idp/identity-export.service.ts:148-166 | `identity.json` reads back with the DID, the genesis key, the stored chain, and the encrypted seed exactly when all four of its columns are set |
| BundleExport.ExportedManifestIsTrue | apps/slyng/api/src/idp/identity-export.service.ts:196-242 | `manifest.json` reads back with the DID, time, chain length, counts and hashes; it is signed exactly when the exported seed unseals under the password, and then by that very seed, else marked unsigned |
| BundleExport.ExportIsAccepted | apps/slyng/api/src/idp/identity-export.service.ts:196-242 | Every export within the import limits whose seed is its chain head's is accepted with the same DID, root and chain, and the verification its custody implies |
| BundleExport.StaleSeedIsRejected | apps/slyng/api/src/idp/identity-import.service.ts:246-257 | Where a signature verifies only under its own seed's key, a custodial export under a seed other than the chain head's is never accepted |
| BundleExport.AcceptedExactlyUnderTheHead | apps/slyng/api/src/idp/identity-export.service.ts:222-236 | Within the import limits a custodial export is accepted if and only if its seed is the chain head's |
| BundleExport.SignatureFixesTheFiles | apps/slyng/api/src/idp/identity-import.service.ts:223-257 | Two bundles accepted as signed over one payload carry the same DID and the same hash for every file, hence, barring collisions, the same files |
| BundleExport.SignedRootsShareOneHistory | apps/slyng/api/src/idp/identity-import.service.ts:349-361 | Under the same two conditions on the presented statements, the chains of all accepted bundles of one DID lie on one history |
| BundleExport.StrippedSignatureNeedsTheMark | apps/slyng/api/src/idp/identity-import.service.ts:324-339 | An accepted archive without its signature is accepted if and only if it is also re-marked as unsigned, and then only as that, with the same DID, root and chain |
| BundleExport.ParsedDidIsGenesis | packages/rust/syr-did/src/parse.rs:11-59 | Where the strict DID parse succeeds it finds the genesis key |
| BundleExport.DerivedDidParses | packages/rust/syr-did/src/parse.rs:11-59 | Every derived DID parses, to its own key |
| BundleExport.MigrationKeepsTheRoot | apps/slyng/api/src/idp/identity-import.service.ts:147-150 | A custodial identity rotated any number of times, exported and imported elsewhere, is accepted as signed and its restored chain verifies there with the newest key |
| Ingest.CompositeRepository.IngestRecord | apps/slyng/api/src/idp/identity-import.service.ts:480-493 | One entry is merged or created under (importer, local id), or skipped, and counted exactly when written |
| Ingest.CompositeRepository.IngestRecords | apps/slyng/api/src/idp/identity-import.service.ts:470-496 | The loop upserts every usable entry in order and counts those the database took |
| Ingest.IngestionIsAnOverlay | apps/slyng/api/src/idp/identity-import.service.ts:470-496 | All that ingestion does to any table is to lay one fixed table of patches over it |
| Ingest.IngestionIsIdempotent | apps/slyng/api/src/idp/identity-import.service.ts:470-496 | Importing twice leaves the table as importing once, repeated ids and refused writes included |
| Ingest.IngestionOwnsNothingElse | apps/slyng/api/src/idp/identity-import.service.ts:595-602 | Nothing is written under another DID, and no ownership field is ever written, whatever the bundle says |
| Ingest.CountedAreWritten | apps/slyng/api/src/idp/identity-import.service.ts:480-490 | The count is of the entries with an id and a record that the database takes |
| Ingest.LastEntryStands | apps/slyng/api/src/idp/identity-import.service.ts:480-489 | Every field of the last written entry under an id stands in the importer's row, revived, but for the five ownership fields |
| Ingest.NothingElseIsWritten | apps/slyng/api/src/idp/identity-import.service.ts:480-489 | The rows afterwards are those before and one per written id, and fields that no entry brings stay |
| Ordering.ReorderPermutesListed | apps/slyng/api/src/channel/channel.service.ts:265-316 | With distinct ids, the listed rows take each other's positions in the requested order; every other row stays |
| Ordering.ReorderIsTheOnlyOutcome | apps/slyng/api/src/channel/channel.service.ts:265-316 | That description fits no other outcome |
| Ordering.RowsLandOnLastMove | apps/slyng/api/src/channel/channel.service.ts:281-303 | For every list, repeats included, a row ends at the last target among its places that differs from where it started |
| Ordering.ReorderKeepsDistinct | apps/slyng/api/src/channel/channel.service.ts:265-316 | For every list, a reorder keeps a server's positions pairwise distinct if and only if no two listed rows land on one position |
| Ordering.NoRepeatsLandApart | apps/slyng/api/src/channel/channel.service.ts:265-272 | Lists without repeated ids always land apart |
| Ordering.ReorderSettles | apps/slyng/api/src/channel/channel.service.ts:272-291 | Asked again for the same order, every row is at its target if and only if the first call put the list in order, which it does for every list without repeats |
| Ordering.RepeatedIdsCollide | apps/slyng/api/src/channel/channel.service.ts:265-272 | Listing an id twice can put two other rows on one position |
| ChannelOrder.NextPosition | apps/slyng/api/src/channel/channel.service.ts:227-232 | A new channel goes one behind the server's last row, trashed ones included |
| ChannelOrder.NextPositionIsBehindAll | apps/slyng/api/src/channel/channel.service.ts:227-232 | The next position is 0 on a server without channels, else one more than the highest, trashed ones included |
| ChannelOrder.ReorderTakesLiveChannelsOnly | apps/slyng/api/src/channel/channel.service.ts:262-270 | A reorder that lists a missing, foreign or trashed channel changes nothing at all |
| ChannelOrder.RestoreUndoesTrash | apps/slyng/api/src/channel/channel.service.ts:133-214 | Restoring undoes trashing; hard deletion works behind trashing only |
| ChannelOrder.WritesAreCounted | apps/slyng/api/src/channel/channel.service.ts:281-318 | The count is the number of places whose row is off its target or in another category than asked for |
| ChannelOrder.ChannelService.Create | apps/slyng/api/src/channel/channel.service.ts:216-257 | The new row has a fresh position; no other row changes |
| ChannelOrder.ChannelService.Delete | apps/slyng/api/src/channel/channel.service.ts:133-159 | Trashing fails for missing, serverless and trashed channels, and changes only the flag |
| ChannelOrder.ChannelService.Restore | apps/slyng/api/src/channel/channel.service.ts:161-186 | Restoring works exactly on trashed channels and keeps their position |
| ChannelOrder.ChannelService.HardDelete | apps/slyng/api/src/channel/channel.service.ts:188-214 | Only a trashed channel can go for good |
| ChannelOrder.ChannelService.Reorder | apps/slyng/api/src/channel/channel.service.ts:259-319 | Rejected as a whole unless every id is a live channel of the server; otherwise the whole new table and the number of writes |
| ChannelOrder.ChannelService.Write | apps/slyng/api/src/channel/channel.service.ts:281-316 | The loop writes each listed row from the rows as first read, and counts the rows it wrote |
| ChannelOrder.ChannelService.WriteRow | apps/slyng/api/src/channel/channel.service.ts:285-315 | One merge carries the position and the category change, or is skipped |
| ChannelOrder.ReorderOutcome | apps/slyng/api/src/channel/channel.service.ts:259-319 | For every list, listed channels get the requested category and their landing, unlisted ones keep everything; without repeats the listed ones share out their own positions in the requested order |
| ChannelOrder.ReorderAgainWritesNothing | apps/slyng/api/src/channel/channel.service.ts:288-301 | A repeated reorder writes nothing if and only if the list is empty, or the first call put it in order (always, without repeats) and the category argument is left out, null or holds a colon |
| ChannelOrder.ReordersWithoutRepeatsAreHarmless | apps/slyng/api/src/channel/channel.service.ts:265-272 | A reorder that lists no id twice never makes rows land together |
| ChannelOrder.StepKeepsDistinct | apps/slyng/api/src/channel/channel.service.ts:133-319 | An operation keeps positions pairwise distinct if and only if it is not a reorder whose repeated ids make two rows land together |
| ChannelOrder.HistoryKeepsDistinct | apps/slyng/api/src/channel/channel.service.ts:133-319 | Throughout a history of create, trash, restore, hard delete and reorder a server's positions are pairwise distinct if and only if none of its reorders makes rows land together |
| CategoryOrder.CategoryService.Create | apps/slyng/api/src/category/category.service.ts:28-55 | A new category goes one behind the server's last |
| CategoryOrder.CategoryService.Reorder | apps/slyng/api/src/category/category.service.ts:112-157 | Fewer than two ids change nothing; otherwise all must be the server's, and the new table and the number of writes are those of the reassignment |
| CategoryOrder.CategoryService.Write | apps/slyng/api/src/category/category.service.ts:127-154 | The loop writes exactly the misplaced rows |
| CategoryOrder.CategoryService.Swap | apps/slyng/api/src/category/category.service.ts:159-173 | Each of two existing categories takes the other's position |
| CategoryOrder.CategoryService.Delete | apps/slyng/api/src/category/category.service.ts:77-110 | The category goes; exactly the channels filed under it lose their link |
| CategoryOrder.ReorderOutcome | apps/slyng/api/src/category/category.service.ts:112-157 | Every listed row ends on its landing and distinctness is kept exactly when those are apart; without repeats positions are shared out in the requested order and a second call has nothing to write |
| CategoryOrder.SwapKeepsDistinct | apps/slyng/api/src/category/category.service.ts:159-173 | A swap keeps positions distinct if and only if both share a server or each finds the other's position free in its own |
| CategoryOrder.SwapUndoesItself | apps/slyng/api/src/category/category.service.ts:159-173 | Swapping twice restores the table |
| CategoryOrder.SwapExchangesPositions | apps/slyng/api/src/category/category.service.ts:159-173 | A swap exchanges two positions and changes nothing else |
| CategoryOrder.ReorderTakesOwnCategoriesOnly | apps/slyng/api/src/category/category.service.ts:112-123 | A reorder that lists a missing or foreign category, or fewer than two, changes nothing |
| CategoryOrder.NextPositionIsBehindAll | apps/slyng/api/src/category/category.service.ts:30-34 | The next position is 0 on a server without categories, else one more than the highest |
| CategoryOrder.DeletionUnfilesItsChannels | apps/slyng/api/src/category/category.service.ts:83-96 | After a deletion no channel is filed under the category, every other link stands, and nothing else of a channel changes |
| CategoryOrder.MisplacedAreCounted | apps/slyng/api/src/category/category.service.ts:127-156 | The count is the number of places whose row is off its target |
| CategoryOrder.StepKeepsDistinct | apps/slyng/api/src/category/category.service.ts:28-173 | An operation keeps positions distinct if and only if it is no reorder whose rows land together and no swap across servers onto a taken position |
| CategoryOrder.HistoryKeepsDistinct | apps/slyng/api/src/category/category.service.ts:28-173 | Throughout a history of create, reorder, swap and delete positions are pairwise distinct if and only if no operation is such a one |
| AuthTokens.AuthService.IssueOAuthState | apps/slyng/api/src/auth/auth.service.ts:67-77 | An issued token is genuine and carries the given instance, redirect and issue time |
| AuthTokens.AuthService.VerifyOAuthState | apps/slyng/api/src/auth/auth.service.ts:84-109 | Accepted exactly when genuine, at most ten minutes old and not on record; the whole new record is stated |
| AuthTokens.AuthService.CleanSeenStates | apps/slyng/api/src/auth/auth.service.ts:111-116 | The sweep forgets exactly the entries older than eleven minutes |
| AuthTokens.AuthService.IssueBridgeToken | apps/slyng/api/src/auth/auth.service.ts:127-132 | The table is swept and gains one entry |
| AuthTokens.AuthService.ConsumeBridgeToken | apps/slyng/api/src/auth/auth.service.ts:134-141 | The entry is gone whatever the outcome, and its session is returned while it is young |
| AuthTokens.AuthService.CleanBridgeTokens | apps/slyng/api/src/auth/auth.service.ts:143-148 | The sweep forgets exactly the entries older than two minutes |
| AuthTokens.AcceptedIsRemembered | apps/slyng/api/src/auth/auth.service.ts:105-116 | An accepted token stays on record until the clock has passed its replay window |
| AuthTokens.GenuineMeans | apps/slyng/api/src/auth/auth.service.ts:84-102 | A token is genuine exactly when it is one dot between a payload and a signature that decodes like the payload's own, and the payload has a time and an instance |
| AuthTokens.RecordHoldsAccepted | apps/slyng/api/src/auth/auth.service.ts:105-116 | In every run the record holds exactly the tokens accepted within the replay window |
| AuthTokens.AcceptedExactly | apps/slyng/api/src/auth/auth.service.ts:84-109 | In every run an attempt is accepted exactly when its token is genuine, at most ten minutes old, and was not accepted in the eleven minutes before |
| AuthTokens.StateTokenIsSingleUse | apps/slyng/api/src/auth/auth.service.ts:79-109 | On a clock that never goes back, a token dated at most one minute ahead of its acceptance is accepted once in any run, sweeps included |
| AuthTokens.FutureTokenIsReplayed | apps/slyng/api/src/auth/auth.service.ts:103-116 | That minute is exact: any genuine token dated later is accepted twice in some run |
| AuthTokens.PayloadIsSingleUse | apps/slyng/api/src/auth/auth.service.ts:84-109 | An issued payload, under whatever signature spelling, is accepted at most once in time if and only if its signature has no second spelling that decodes to the same bytes |
| AuthTokens.FreshTokenIsAccepted | apps/slyng/api/src/auth/auth.service.ts:103-107 | A genuine token not presented before is accepted exactly during its ten minutes |
| AuthTokens.TableHoldsOutstanding | apps/slyng/api/src/auth/auth.service.ts:125-148 | After every run the table holds exactly the tokens issued, not presented since, and young |
| AuthTokens.BridgeTokenYieldsItsSession | apps/slyng/api/src/auth/auth.service.ts:134-141 | In every run a bridge token yields its own session exactly when issued at most two minutes ago and not presented since |
| AuthTokens.BridgeTokenIsSingleUse | apps/slyng/api/src/auth/auth.service.ts:134-141 | Once presented, a bridge token is dead in every continuation that does not issue it anew |
| AuthTokens.OtherTokensDoNotMatter | apps/slyng/api/src/auth/auth.service.ts:125-148 | What a consumer gets is the same had the events of all other tokens never happened, sweeps included |
| Folders.GetDescendantIds | apps/slyng/api/src/idp/idp-content.repository.ts:286-302 | Stops on any graph and returns only strict descendants; on an acyclic forest each at most once, and all of them when there are fewer than 10,000 |
| Folders.WalkFinished | apps/slyng/api/src/idp/idp-content.repository.ts:286-302 | A walk that empties its stack has found every descendant, on any graph |
| Folders.DescendantsByParents | apps/slyng/api/src/idp/idp-content.repository.ts:285-302 | A folder's descendants are its children and theirs, by the parent links alone |
| Folders.CutShort | apps/slyng/api/src/idp/idp-content.repository.ts:286-302 | On an acyclic forest the guard cuts in only after as many visits as there are descendants |
| Folders.GetFullPath | apps/slyng/api/src/idp/idp-content.repository.ts:270-283 | Stops on any graph; the breadcrumbs are exactly the existing ancestors fewer than 64 steps up, each the parent of the next, ending at the folder, with their names |
| Folders.DownAndUpAgree | apps/slyng/api/src/idp/idp-content.repository.ts:270-302 | Within depth 64, a folder is a descendant of another exactly when the other stands on its path |

## Left out

- Ordering.ReorderPermutesListed: stated, with Ordering.ReorderIsTheOnlyOutcome, for lists without repeated ids; with repeats no permutation takes place, and Ordering.RowsLandOnLastMove says where rows end.
- RowOrder.RowOrderDoesNotMatter: its three conditions are sufficient, not necessary (tied rows may agree by accident); two lemmas show that neither distinct positions nor live targets can be dropped.
- Folders.GetDescendantIds: completeness is promised below 10,000 descendants; a larger walk may or may not be complete, depending on which folders have children.
- GatewayRuns.StepKeepsAgreement: each handler is one atomic step, although the code awaits between assigning the user id and registering the socket; interleavings inside a handler are not modelled.
- Ingest.CompositeRepository.IngestRecords: a merge is modelled per leaf path, so a value that is an object on one side and a plain value on the other is not captured.
- Rotation.BuiltChainVerifies: canonicalisation and signing are taken not to fail.
- Permission masks are finite bit sets, so negative and malformed `BigInt` strings are not modelled, nor is a non-integer position.
- The codec's composite record ids; row ids are taken in their encoded form.
- Client state objects are values inside the map, so two map entries sharing one object are not captured; recipients of one broadcast are a set without an order; auto-identify on connect is a connect followed by an identify.
- Gateway operations that only send or count: heartbeat, typing, profile watches, profile broadcasts, the voice leave and video-state branches, persistence of presence, and the parsing and salvage of frames; missing optional services.
- Sequence numbers wrap at 2^32 as in a release build.
- Tables are maps and transactions are atomic; a database refusal during record import is a set of failing ids.
- The current root used by an export is the encoded head of the verified stored chain; `root-key.service` is not part of this model. Key-derivation parameters of a sealed seed are not separate columns.
- Bundle handling around the core: zip byte formats and duplicate entry names, URL rewriting and date revival (one value map), MIME types, asset re-upload, profile merge, seed-ownership probe, registration and its rollback.
- Neither `rotation_seq` nor the DID inside `identity.json` is compared with anything by the import, so nothing is proved about them.
- Strings are sequences of characters, so file names with lone surrogates are not modelled. Decoded state-token payloads are taken to be well typed.
- Hard deletion's purge of messages, reactions, pins and read states; channel updates and conversations; audit rows and emitted events of the channel and category services; the padding loop for missing positions, which never runs.
- Ciphers, key derivation, the outbox, wire serialisation helpers, `role.service`, `voice.service`, `rotation.service`, `kv.service` and `platform.service`.
