# Knowledge Vault, verified

A Dafny model of the parts of Knowledge Vault in which several pieces of code have to agree, with proofs of
what they agree on. Every file is a module; `dafny verify dfyconfig.toml` checks the whole project.

What is modelled, and the main result of each part:

- **The encrypted streaming stack** (`Bytes`, `Blocks`, `Decimal`, `Ranges`, `Gateway`, `Kvblob`, `BlockCache`,
  `StreamWorker`, `Streaming`). A player's byte range goes through the service worker's block runs and its
  bounded cache, the gateway's range parser and window, and the framed `.kvblob` format. `Streaming.PlayEncrypted`
  says the whole path is a plain slice of the plaintext: for every document, frame size, cache state and request.
  `Streaming.PlayAltered` says no wrong byte is ever played when the stored bytes were replaced, short of a forgery,
  and that requests for frames left as they were are still answered in full.
- **Session liveness** (`Sessions`, `SessionRuns`). Several instances with private caches over one database, and the
  nightly job that closes idle and expired sessions. An answer "live" is at most 19998 ms stale, and that bound is
  reached; nobody with a usable session is refused; and `SessionRuns.EndsExactlyFor` says what ends a session.
- **The role tree** (`Policy`, `RoleTree`, `Visibility`, `Organization`). Path strings stand for tree ancestry,
  the policy decides what parent links say, who sees a hidden branch, and the routes that change the tree.
- **Who a course reaches** (`Deadlines`, `Reach`, `Lateness`). One person's course list and a branch's report are
  computed by different loops; they agree on who is reached, with which obligation and since when, and
  `Lateness.OverdueAgreesExactly` says on which tables they agree who is late.
- **Export and revive** (`Revival`, `Revive`). The revived organization is the exported one under new ids, and
  registrations complete it.
- **Resumable uploads** (`Upload`, `UploadRuns`). The browser's resuming loop, the gateway's row and Google's
  session, one request at a time and under every interleaving with losses and crashes.
- **The life of a remote object** (`Lifecycle`). From upload ticket to a retried deletion, with a crash possible
  between any two database writes: no file in the customer's storage is forgotten.
- **Exams** (`Exams`, `Marking`). The shuffle is a bijection between draws and orders, and a dealt paper is marked
  as the paper as written.
- **Limits** (`Limiters`, `Budget`). The two rate limiters and the monthly streaming allowance.
- **Text lengths** (`Utf8`). The stored size announced before a file is read is the size stored.

Conventions. Ids are natural numbers, instants are integers in milliseconds on one clock, and a route handler is
one atomic step except where a model says otherwise (`UploadRuns`, `Lifecycle` and `Budget` split handlers at
their awaits). A query returns its rows in any order: a method takes a listing of exactly the rows. Cryptography is
a record of functions: opening inverts sealing under the same key and nonce, sealed output is 16 bytes longer, and
only sealed output opens (section 7 of NIST SP 800-38D, nonces as in section 8.2.1). That nobody without the key makes
bytes that open, and that a frame does not open under another nonce, are hypotheses stated where they are used
(`Streaming.Unforged`, `Streaming.NonceBound`). Header JSON is
a pair of functions of which reading inverts writing. What the network, Google or a random source does is a parameter.

Points where the code differs from what its comments say, or from what one might expect; the model follows the code:

- `apps/api/src/auth/tokens.ts:150-152` says a session ended elsewhere stops working within seconds; a beat that
  re-remembers an ended session makes it up to 19998 ms (`SessionRuns.StalenessAttained`).
- The nightly job (`apps/api/src/compliance/routes.ts:619-641`) ends the sessions it has read without asking whether
  they have ended since, so it can replace a recorded end, exactly for the sessions it has read and not yet written
  (`SessionRuns.EndChangesExactly`); a ban can so become an idle session (`SessionRuns.BanIsOverwritten`).
- `apps/api/src/storage/jobs.ts:68` says the first wait is one minute; it is two, and the one-day cap cannot be
  reached in eight tries (`Lifecycle.WaitsDouble`).
- `apps/api/src/courses/helpers.ts:40-42` says no two views can disagree about who is late. They agree on who is
  reached and on the clock. The overdue flags agree exactly when no mandatory placement in view of the branch has a
  deadline, or one reaches the person and all in view have the same (`Lateness.OverdueAgreesExactly`); two families
  fail, one with two deadlines and one with an obligation that reaches only others (`Lateness.TwoDeadlinesDisagree`,
  `Lateness.OptionalReachDisagrees`).
- The deadline shown can depend on row order: it does not exactly when all winning placements carry the same terms
  (`Lateness.TermsDependOnRowOrder`, `Lateness.TwoTermsShown`).
- A fixed window of the limiter in `apps/api/src/security.ts:16-26` allows up to twice its maximum less one within
  one window's length (`Limiters.AtMostTwiceLessOne`, `Limiters.Burst`).
- The pass mark is compared with a rounded percentage, so it is half a percent lower than written
  (`Marking.PassMark`).
- An upload can reach the commit with every byte held and the row not marked complete, and the commit then refuses it.
  That happens exactly when, among the attempts at the last chunk, one is refused as out of order by a row that a
  recheck, and no answered question, has brought to the full count (`Upload.UploadViaGateway`, `Upload.LeftOpen`,
  `Upload.UploadLeftOpen`).
- A course revised with the object it already has loses that object (`Lifecycle.ReviseNeedsAnotherObject`,
  `Lifecycle.RevisedIsLost`), and one whose row was never claimed for it can lose it after a day
  (`Lifecycle.UnclaimedIsCollected`, `Lifecycle.UnclaimedIsLost`). Of two courses created with one object, deleting one
  costs the other its file (`Lifecycle.SharedIsLost`).
- The count of a text's UTF-8 length skips the unit after a high surrogate. It is exact exactly when the surpluses of
  the lone ones add up to nothing (`Utf8.CountIsExact`). No caller reaches a text that fails: `utf8Length` is called
  only through `kvblobHeaderBytes`, on what `JSON.stringify` wrote (`apps/api/src/storage/gdrive-store.ts:607`), and
  that is well-formed for every type and file name (`Utf8.HeaderText.IsWellFormedText`).
- A revive puts withdrawn courses back in deployment and drops per-branch deadlines (`Revival.ReachIsRestored`,
  `Revival.TermsFallBack`).

## Model

| member | source | states |
|---|---|---|
| Ranges.GroupsExact | apps/api/src/storage/gateway.ts:231-233 | The range expression matches exactly the headers that, trimmed, are `bytes=`, a run of digits, a dash and a run of digits, and yields those two runs. |
| Ranges.ParseRangeExact | apps/api/src/storage/gateway.ts:226-249 | A header is read as a range exactly of the positions RFC 9110, section 14.1.2, says it asks for; an accepted range satisfies 0 <= start <= end < total, and a refused one asks for no position at all. |
| Ranges.HeaderUnderstood | apps/web/public/kv-stream-sw.js:101-107 | The header the player's worker writes for stored bytes a to b is read back by the gateway as a to b, cut at the end of the object; past the end it is refused. |
| Ranges.ReadersAgree | apps/web/public/kv-stream-sw.js:245-258 | The worker's own range parser and the gateway's accept the same headers and give them the same bounds. |
| Gateway.Window.Transform | apps/api/src/storage/gateway.ts:255-265 | However the upstream is split into chunks, what has been passed on is exactly bytes [skip, skip + take) of what has been fed. |
| Gateway.Read | apps/api/src/storage/gateway.ts:300-359 | Whether Drive honours the range or sends the whole file, and in whatever pieces, the reader gets the status, the bytes asked for and a Content-Length equal to the bytes sent; the counter counts them. |
| Gateway.Pipe | apps/api/src/storage/gateway.ts:354-358 | The pipeline of window and counter emits the window of the upstream when it is cut, all of it otherwise, and counts what it emitted. |
| Gateway.FetchedExactly | apps/api/src/storage/gateway.ts:300-319 | A request for stored bytes a to b is answered 206 with exactly those bytes, as far as the object goes, and 416 when it starts past the end. |
| Gateway.OwedExactly | apps/api/src/storage/gateway.ts:300-319 | Without a Range header a reader is owed the whole object; with one exactly the bytes at the positions RFC 9110, section 14.1.2, says it asks for, and 416 when it cannot be read or asks for none. |
| Kvblob.FillNonce | apps/api/src/storage/kvblob.ts:25-30 | The twelve-byte buffer filled in place is the eight-byte base followed by the big-endian counter. |
| Kvblob.NoncesDistinct | apps/api/src/storage/kvblob.ts:25-30 | Two frames of one object never share a nonce. |
| Kvblob.FrameCountBounds | packages/shared/src/storage.ts:61-63 | The shared frame count and the codec's agree, there is at least one frame, and the frames cover the plaintext with none to spare. |
| Kvblob.SealFrames | apps/api/src/storage/kvblob.ts:79-87 | The sealing loop yields the frames of the plaintext in order, and fails only when a frame counter would not fit in 32 bits. |
| Kvblob.EncryptToKvblob | apps/api/src/storage/kvblob.ts:47-95 | The blob is the preamble followed by every frame, sealed under its own nonce; its length is what `kvblobCipherBytes` announces and its header describes the plaintext. |
| Kvblob.SealedLength | packages/shared/src/storage.ts:95-98 | All frames together are as long as the plaintext plus one tag a frame. |
| Kvblob.ReadBack | apps/api/src/storage/kvblob.ts:97-112 | The header reader recovers the header and the offset of frame 0 from any preamble the codec writes, whatever follows it. |
| Kvblob.HexRoundTrip | apps/api/src/storage/secrets.ts:196-204 | Decoding a hex digest gives the bytes it was written from, so comparing decoded digests compares digests. |
| Kvblob.DecryptFromKvblob | apps/api/src/storage/kvblob.ts:121-155 | Decryption succeeds exactly when the blob holds some plaintext whose frames authenticate and whose hash matches, and then returns that one plaintext; header errors are reported as they are found. |
| Kvblob.RoundTrip | apps/api/src/storage/kvblob.ts:47-155 | A sealed blob holds a plaintext exactly when it is the one that was sealed and its hash is the recorded one, for every frame size and every length including zero. |
| Kvblob.SealAndOpen | apps/api/src/storage/kvblob.ts:47-155 | Sealing a document and opening the result gives back the document, its type and its name, exactly when it fits the format and the hash given for it, if any, is its own. |
| Kvblob.HeldIsUnique | apps/api/src/storage/kvblob.ts:121-155 | A blob that starts with the frames of one plaintext holds no other of that size. |
| Kvblob.CipherRangeCovers | packages/shared/src/storage.ts:105-121 | The stored range computed for a plaintext range is exactly the concatenation of the frames that cover it. |
| BlockCache.Cache.Touch | apps/web/public/kv-stream-sw.js:175-180 | A hit moves the block to the newest place and changes nothing else. |
| BlockCache.Cache.Evict | apps/web/public/kv-stream-sw.js:189 | Evicting while the cache is over 24 blocks keeps the 24 newest and drops the rest. |
| BlockCache.Cache.PutRun | apps/web/public/kv-stream-sw.js:183-190 | A fetched run enters as the newest blocks, in order, and the oldest beyond 24 leave. |
| BlockCache.Cache.PutFailed | apps/web/public/kv-stream-sw.js:183-189 | A run that fails leaves none of its blocks behind, though its promises may have pushed older blocks out. |
| BlockCache.AskedForStays | apps/web/public/kv-stream-sw.js:184-190 | The block just asked for is still cached when it is returned. |
| BlockCache.EvictsOldest | apps/web/public/kv-stream-sw.js:178-189 | Every block evicted was last used before every block kept. |
| StreamWorker.Stream.Upstream | apps/web/public/kv-stream-sw.js:101-125 | One request for stored bytes, and a second only after a rejected ticket was renewed; the last reply decides the answer. |
| StreamWorker.SliceRun | apps/web/public/kv-stream-sw.js:138-143 | A plain run is cut into its blocks at the block size, the last one shorter. |
| StreamWorker.DecryptRun | apps/web/public/kv-stream-sw.js:148-164 | An encrypted run is opened frame by frame at the running offset, and fails as a whole when one frame does not authenticate. |
| StreamWorker.Stream.FetchBlocks | apps/web/public/kv-stream-sw.js:135-165 | The blocks of a run, one per block asked for, each equal to the plaintext block when the origin can be trusted. |
| StreamWorker.Stream.RunEnd | apps/web/public/kv-stream-sw.js:181-182 | The run extends over uncached blocks up to four and never past the last block wanted, and stops only for one of those reasons. |
| StreamWorker.Stream.GetBlock | apps/web/public/kv-stream-sw.js:173-191 | A cached block is returned without a request and becomes the newest; a missing one is fetched with its run; every cached block stays a block of the plaintext. |
| StreamWorker.Stream.GetMissing | apps/web/public/kv-stream-sw.js:181-190 | A miss caches the run and returns its first block, or caches nothing of it when the fetch fails. |
| StreamWorker.Stream.Piece | apps/web/public/kv-stream-sw.js:202-208 | The piece cut from one block extends the bytes produced so far to the end of that block. |
| StreamWorker.Stream.RangeBody | apps/web/public/kv-stream-sw.js:199-222 | The body is the plaintext slice asked for, or whole shares of its blocks up to where the stream broke off, and always the first block's share. It is an error only when the first block is neither cached nor to be had; a later failure only cuts the body. |
| StreamWorker.Stream.Serve | apps/web/public/kv-stream-sw.js:224-279 | For every cache state and every Range header, an answer with a body is the promised status, Content-Length, Content-Range and slice of the plaintext cut to 4 MiB, or a beginning of it; when the blocks it reads can be fetched it is exactly the promise. An answer without one is 416 for an unreadable range and otherwise carries the status of the last reply for the first block: 401 for an expired ticket, the gateway's own, 422 for a lost connection or a piece that does not open. |
| StreamWorker.Stream.ServePlayed | apps/web/public/kv-stream-sw.js:248-269 | A readable range is answered 206 with a bounded window, or with the status of what went wrong with its first block; an unreadable one 416. |
| StreamWorker.Stream.Answer | apps/web/public/kv-stream-sw.js:236-278 | A range's body, or the status of the request that its first block failed on. |
| StreamWorker.Stream.ReadBlocks | apps/web/public/kv-stream-sw.js:199-222 | The body is whole shares from the first block on; it is an error exactly of the first block, with that block's status. |
| StreamWorker.Origin.GenuineRunOpens | apps/web/public/kv-stream-sw.js:151-163 | Whatever bytes were delivered for a run, if no piece opens but a frame that was sealed there, every block that opens is the right plaintext block. |
| StreamWorker.Origin.StoredRunDecodes | apps/web/public/kv-stream-sw.js:135-165 | The stored bytes of a run, delivered faithfully, decode to the plaintext blocks of the run. |
| StreamWorker.Origin.TrustedIsRight | apps/web/public/kv-stream-sw.js:135-165 | Unforged frames over any network, or an honest network where nothing is sealed, are enough for every decoded block to be right. |
| StreamWorker.Origin.StoredIsTrusted | apps/web/public/kv-stream-sw.js:135-165 | A network that never alters the stored object delivers only frames as sealed, each in its place. |
| StreamWorker.Origin.HealthyIsTotal | apps/web/public/kv-stream-sw.js:101-165 | Over a network that answers, every run is fetched and decodes. |
| Streaming.GatewayIsHonest | apps/api/src/storage/gateway.ts:278-359 | The gateway in front of a stored object delivers only the bytes asked for, and delivers them all when nothing fails. |
| Streaming.PlayEncrypted | apps/web/public/kv-stream-sw.js:127-268 | End to end: seal a document, store it, serve any list of requests through gateway and worker. Sealing fails exactly when the number of frames or the length of the header does not fit in 32 bits; otherwise no answer holds a byte other than promised, a refusal is the one promised or 422 for a lost connection, and without failures every answer is the promised slice of the plaintext. |
| Streaming.RefusedForReason | apps/web/public/kv-stream-sw.js:270-278 | Behind the gateway of an object as it was stored, an answer without a body is the promised refusal, or 422 and some connection was lost. |
| Streaming.UnforgedIsTrusted | apps/web/public/kv-stream-sw.js:151-163 | Behind the gateway it is enough that nobody without the key put anything that opens into a frame's place. |
| Streaming.CutShortIsUnforged | apps/web/public/kv-stream-sw.js:151-163 | An object cut off after any number of frames, and followed by fewer bytes than a tag, is such an object, under every cipher with the laws assumed. |
| Streaming.ReorderedIsUnforged | apps/api/src/storage/kvblob.ts:25-30 | So is one whose frames were moved, swapped, repeated or dropped, because no two nonces of a document are equal and nothing opens under another nonce. |
| Streaming.PlayAltered | apps/web/public/kv-stream-sw.js:127-279 | End to end over altered storage: whatever bytes stand in the sealed object's place, as long as no frame is forged no answer holds a byte other than the one promised; and without failures a request whose own frames stand as sealed is answered exactly as promised, whatever became of the others. |
| Streaming.PlayPlain | apps/web/public/kv-stream-sw.js:135-147 | End to end for a document stored as it is: no answer holds a wrong byte, a refusal is the one promised or 422 for a lost connection, and without failures every answer is the promised slice. |
| Sessions.Api.EndSession | apps/api/src/auth/tokens.ts:73-86 | A row already ended keeps its time and reason, one that was not gets these; every token of the session ends revoked, an earlier revocation keeping its time; no other row changes and this instance forgets the session alone. |
| Sessions.Api.CheckSession | apps/api/src/auth/tokens.ts:185-225 | The tables, this instance's cache and the answer after a check are those of the check's specification. |
| Sessions.Api.TouchSession | apps/api/src/auth/tokens.ts:235-263 | The tables, the cache and the answer after a beat are those of the beat's specification, throttled write included. |
| Sessions.Api.RotateRefreshToken | apps/api/src/auth/tokens.ts:283-304 | The tables, the cache and the answer after a refresh are those of the rotation's specification, grace window and replay included. |
| Sessions.EndListed | apps/api/src/compliance/routes.ts:629-646 | The nightly job's writes give each session it has listed the time and the reason, expired or else idle, whether or not the row had ended meanwhile, and revoke the tokens of all of them. |
| SessionRuns.NextKeeps | apps/api/src/auth/tokens.ts:154-304 | Every step of any instance or nightly job keeps what the caches and rows may claim about each session, and moves no row's activity but a beat's own; what a job has listed stays unusable until it is written, and no end on record changes except by a sweep that listed the row. |
| SessionRuns.LiveMeansRecentlyLive | apps/api/src/auth/tokens.ts:185-225 | In every run of any number of instances, a session answered live is un-ended or ended at most 19998 ms ago, is not expired, had its last accepted beat within the idle window, and is answered with the profile on its own row. |
| SessionRuns.UsableIsLive | apps/api/src/auth/tokens.ts:185-304 | Nobody with a usable session is refused: whatever an instance remembers, a check, a beat and the refresh of an unexpired token unrevoked or revoked at most 60 s ago are answered live, and none of them ends a session or revokes another token. |
| SessionRuns.BothTabsAreLetIn | apps/api/src/auth/tokens.ts:265-268 | Two tabs that present one refresh token within 60 s, on any two instances, are both let in. |
| SessionRuns.EndsExactlyFor | apps/api/src/auth/tokens.ts:185-304 | In every run a step ends a session exactly when it is asked to, finds it expired or idle as it is asked about, is a replay of one of its tokens, or is the nightly job that listed it; at that moment and for that reason. |
| SessionRuns.RevokedOnlyFor | apps/api/src/auth/tokens.ts:73-86 | A token is revoked only as it is accepted itself, or with a session that is over. |
| SessionRuns.WritesAreThrottled | apps/api/src/auth/tokens.ts:227-263 | One instance writes a session's activity at most once a minute, whatever happens between two of its beats. |
| SessionRuns.CachesStaySmall | apps/api/src/auth/tokens.ts:168-172 | In no run does an instance remember more than 5001 sessions. |
| SessionRuns.StalenessAttained | apps/api/src/auth/tokens.ts:235-263 | That bound is reached: a stale beat on another instance re-remembers an ended session. |
| SessionRuns.DeadMeansDead | apps/api/src/auth/tokens.ts:141-153 | Nobody is told a session is over unless the database says so, and for the reason it records; a refresh is refused besides only for a token that is unknown or expired. |
| SessionRuns.EndedForGood | apps/api/src/auth/tokens.ts:73-86 | An ended session stays ended; the moment and the reason stay as first recorded unless a nightly job had read the row before, and then the moment only moves later. |
| SessionRuns.EndChangesExactly | apps/api/src/compliance/routes.ts:619-641 | In every run, the recorded end of a session can still change exactly while a nightly job that listed the session has yet to write. |
| SessionRuns.BanIsOverwritten | apps/api/src/compliance/routes.ts:619-641 | A run in which a session ended by a ban is on record as idle afterwards. |
| SessionRuns.LiveIsNotPending | apps/api/src/compliance/routes.ts:619-626 | Nobody is answered live on a session that a nightly job had listed, in any continuation. |
| SessionRuns.OnlyBeatsMove | apps/api/src/auth/tokens.ts:227-263 | An accepted beat at t leaves the stored activity in (t - 60 s, t]; no other step moves it. |
| SessionRuns.IdleMeansIdle | apps/api/src/auth/tokens.ts:48-51 | A session ended as idle, by a check or by the nightly job, had no accepted beat for the idle window less the 60 s write throttle. |
| SessionRuns.RefreshMeansUsable | apps/api/src/auth/tokens.ts:283-304 | In every run, on any instances, a refresh token that was accepted once is accepted again for 60 s at most, and never past its expiry. |
| SessionRuns.ReplayEndsSession | apps/api/src/auth/tokens.ts:290-295 | In every run, replaying a token revoked more than 60 s ago is refused, ends its session and revokes its whole chain for good, and from 19998 ms later nothing is answered live for that session. |
| SessionRuns.RevokedForGood | apps/api/src/auth/tokens.ts:73-86 | A revoked token stays revoked, at the time first recorded, through every continuation of a run. |
| Policy.AncestryTransitive | packages/shared/src/policy.ts:12-20 | Ancestry by path prefix is transitive. |
| Policy.AncestorsAreNested | packages/shared/src/policy.ts:12-20 | Of two ancestors of one node the shorter path is an ancestor of the longer. |
| RoleTree.PathsAreAncestry | packages/shared/src/policy.ts:12-20 | The string test holds exactly when following parent links reaches the ancestor, for self-or-ancestor and for strict ancestor. |
| RoleTree.SamePath | apps/api/src/roles/routes.ts:190-206 | Two roles never share a path. |
| RoleTree.RootPath | packages/shared/src/policy.ts:22-29 | A path without a separator is exactly the root's. |
| RoleTree.OneDecides | packages/shared/src/policy.ts:45-74 | The policy says yes exactly when a single placement satisfies the action's rule. |
| RoleTree.PolicyFollowsTree | packages/shared/src/policy.ts:45-74 | The policy decides from path strings exactly what the same rules say over parent links. |
| Visibility.HiddenAncestorOf | apps/api/src/roles/routes.ts:86-93 | The scan over path prefixes finds the topmost hidden level above a node, root excepted, and nothing exactly when there is none. |
| Visibility.FirstOfChain | apps/api/src/requests/routes.ts:38-45 | The topmost hidden level is the first element of the chain the request routes compute. |
| Visibility.SliceIsParentClosed | apps/api/src/roles/routes.ts:94-109 | With every role a person sees they see its parent, so the slice can be drawn as a tree. |
| Visibility.OpenExactly | apps/api/src/roles/routes.ts:86-98 | A role is effectively public exactly when it and every level above it but the root are public, following parent links. |
| Visibility.SliceExactly | apps/api/src/roles/routes.ts:94-109 | A person sees a role exactly when they own it or a role above it, sit on it or below it, or some role at or below it is effectively public. |
| Visibility.HiddenStaysHidden | apps/api/src/roles/routes.ts:94-109 | What is below a hidden level is out of sight of everybody who owns nothing above it and sits nowhere below it. |
| Visibility.ApprovalOpens | apps/api/src/requests/routes.ts:680-686 | Approving a visibility request makes the branch effectively public, opens the branch and the levels above it but the root and no others, and takes nothing out of anybody's slice. |
| Visibility.GateOf | apps/api/src/requests/routes.ts:47-52 | There is exactly one level at which a request is decided: the topmost hidden one, or the branch itself. |
| Visibility.GateCoversChain | apps/api/src/requests/routes.ts:47-52 | Whoever may decide at the topmost hidden level governs every level the approval opens. |
| Organization.Org.constructor | apps/api/src/orgs/routes.ts:186-225 | A new organization has the root role with the first number, its founder as owner with every delegation, and satisfies the organization's invariant. |
| Organization.ChildKeeps | apps/api/src/roles/routes.ts:190-206 | A child takes a number never given before, hangs below its parent, hidden or public as asked, with a path below its parent's, and the tree stays a tree. |
| Organization.DeleteKeeps | apps/api/src/roles/routes.ts:457-466 | Removing a childless role other than the root leaves a tree with one root. |
| Organization.Org.CreateChild | apps/api/src/roles/routes.ts:177-210 | Succeeds exactly when the actor owns a role on the chain with the delegation; the new role has the next number; otherwise nothing changes. |
| Organization.Org.DeleteRole | apps/api/src/roles/routes.ts:438-470 | Succeeds exactly for an owner strictly above an empty role, and removes that role only. |
| Organization.Org.Place | apps/api/src/roles/helpers.ts:26-62 | A placement is created once; placing again changes nothing. |
| Organization.Org.RemovePerson | apps/api/src/roles/routes.ts:293-337 | One placement goes when the actor may remove it, an owner's only with co-owner rights and another owner left; a refusal means some placement of the person may not be removed or there is none; no role ever loses its last owner. |
| Organization.Org.RemoveOwner | apps/api/src/orgs/routes.ts:500-530 | Succeeds exactly for a root owner who is not the last, and no role loses its last owner. |
| Organization.Org.SetVisibility | apps/api/src/roles/routes.ts:343-365 | Succeeds exactly for an owner on the chain of a role other than the root, and changes that role's flag only. |
| Organization.Org.ApproveVisibility | apps/api/src/requests/routes.ts:571-577 | Succeeds exactly for whoever governs the level the request is decided at, and then opens the branch and every hidden level above it. |
| Organization.OwnersLeft | apps/api/src/roles/routes.ts:309-324 | Removing a placement that is not a last owner leaves every owned role owned. |
| Deadlines.DeadlineStartsAt | apps/api/src/courses/helpers.ts:94-119 | The start is the latest of the day the course reached the person and every re-opening since, lapse or reset edition. |
| Deadlines.LaterEditionsSuffice | apps/api/src/courses/helpers.ts:235-249 | Asking only for editions published after the completion gives the same start as asking for all. |
| Deadlines.LateMeansAFullTerm | apps/api/src/courses/helpers.ts:121-128 | A deadline is past exactly when its days have passed since every time the course reached the person. |
| Deadlines.LapseOpensATerm | apps/api/src/courses/helpers.ts:53-79 | A completion counts exactly until the instant it lapses, which is as long as it reads completed; then it reads expired and a whole new term runs from the lapse. |
| Reach.Tables.ReachIsRelevant | apps/api/src/compliance/routes.ts:132-136 | The branch report's filter keeps every course placement that reaches somebody placed in the branch. |
| Reach.Tables.ReachesExactly | apps/api/src/courses/helpers.ts:167-169 | A placement reaches a person exactly when it is on their own role, or inherits and is on a role above it by parent links. |
| Reach.Tables.RelevantExactly | apps/api/src/compliance/routes.ts:132-136 | The report looks at exactly the placements at or below the branch's role and those inherited from above it. |
| Reach.Tables.SightingsFollowLinks | apps/api/src/courses/helpers.ts:147-170 | The ways courses reach one person are those the parent links give. |
| Reach.Tables.BranchFollowsLinks | apps/api/src/compliance/routes.ts:145-156 | So are the ways a course reaches the people of a branch. |
| Reach.SightOne | apps/api/src/courses/helpers.ts:174-197 | One sighting replaces, advances or leaves a course's entry as the mandatory-wins rule says. |
| Reach.SightKeeps | apps/api/src/courses/helpers.ts:174-197 | After every sighting the entry is mandatory exactly when some sighting is, its clock is the earliest of the winning kind, and its terms are those of a winning placement. |
| Reach.CoursesReaching | apps/api/src/courses/helpers.ts:147-201 | For every row order the courses listed are exactly those in deployment placed on one of the person's roles, or inherited from a role above one by parent links; mandatory-wins, each with the earliest clock of the winning kind. The result is the fold of the rows in that order. |
| Lateness.TermsDependOnRowOrder | apps/api/src/courses/helpers.ts:175-197 | The deadline and the recurrence shown for a course are the same for all orders of the rows exactly when all winning placements that reach the person (the mandatory ones, if any) carry the same terms; it makes no difference whether a listing may repeat a row. |
| Lateness.FirstDecides | apps/api/src/courses/helpers.ts:175-197 | The first row read, when it reaches the person and no obligation outranks it, fixes the terms shown. |
| Lateness.TwoTermsShown | apps/api/src/courses/helpers.ts:175-197 | Two listings of the same tables show one person a deadline of 10 days and of 30. |
| Reach.Audience.Remember | apps/api/src/compliance/routes.ts:86-100 | A sighting is folded into the audience keeping the earlier of each date. |
| Reach.Audience.Join | apps/api/src/compliance/routes.ts:163-164 | Folding one audience into another keeps, for everybody in either, the earlier of each date. |
| Reach.AudienceOf | apps/api/src/compliance/routes.ts:145-161 | The audience of one course placement is exactly the occupants it reaches, with the dates their sightings show. |
| Reach.BranchCompliance | apps/api/src/compliance/routes.ts:122-169 | For every row order there is a line for exactly the courses placed in the branch or inherited from above it, and each line holds exactly the people at or below the branch's role whom the course reaches by parent links, with the earliest date and earliest mandatory date, led by a mandatory placement when there is one. |
| Reach.ViewsAgree | apps/api/src/compliance/routes.ts:76-169 | For a branch that contains all of a person's placements and a course in deployment, the audience includes the person exactly when the course is listed for them, with the same obligation and the same clock. |
| Reach.BothViews | apps/api/src/compliance/routes.ts:110-169 | The two loops, run over the same tables in any row orders, agree on every course in deployment. |
| Reach.LeadIs | apps/api/src/compliance/routes.ts:164-168 | The placement that leads a course's line is mandatory exactly when some placement in view is. |
| Lateness.OverdueAgreesExactly | apps/api/src/courses/helpers.ts:40-42 | For all row orders, with or without repeated rows, all records and instants, the two views agree who is late exactly when no mandatory placement in view of the branch has a deadline, or one reaches the person and all in view have the same; somebody the course does not reach is in neither view. |
| Lateness.BothFlags | apps/api/src/compliance/routes.ts:221-240 | Both views run over the same tables and both flags computed, each as `FlagsExactly` says; on tables with one deadline they are the same flag. |
| Lateness.FlagsExactly | apps/api/src/compliance/routes.ts:221-236 | Each flag is set exactly when the view's placement obliges, no completion counts, and the whole term has passed since the first sighting on its clock and since every reopening. |
| Lateness.TwoDeadlinesDisagree | apps/api/src/compliance/routes.ts:221-240 | Two mandatory placements with 10 and 30 days: on day 20 the report calls the person late and their own list does not. |
| Lateness.OptionalReachDisagrees | apps/api/src/compliance/routes.ts:221-240 | Only an optional placement reaches the person: the report calls them late for another role's obligation. |
| Revival.TreeIsRestored | apps/api/src/vault-files/routes.ts:396-413 | The copies of a tree's roles form a tree. |
| Revival.AncestryIsRestored | apps/api/src/vault-files/routes.ts:396-413 | A role is on another's parent chain exactly when its copy is on the copy's. |
| Revival.NumberingIsRestored | apps/api/src/vault-files/routes.ts:382-413 | Role numbers stay unique, below the restored counter, with one root. |
| Revival.AuthorityIsRestored | apps/api/src/vault-files/routes.ts:427-462 | A known person may do to a role's copy exactly what they could do to the role. |
| Revival.SightIsRestored | apps/api/src/vault-files/routes.ts:396-413 | A known person sees a role's copy exactly when they saw the role, except that everybody sees the root. |
| Revival.CopyIsValid | apps/api/src/vault-files/routes.ts:464-524 | The revived tables satisfy their foreign keys. |
| Revival.ReachedMeansArrives | apps/api/src/courses/helpers.ts:147-201 | A course is listed for a person exactly when it is in deployment and some placement reaches them, as mandatory when a mandatory one does. |
| Revival.ReachIsRestored | apps/api/src/vault-files/routes.ts:464-524 | The same people are reached by the same courses with the same obligation; a withdrawn course is the exception, and its copy reaches everybody its placements reach. |
| Revival.WholeReachIsRestored | apps/api/src/vault-files/routes.ts:464-524 | Once everybody is found, each person's course list and the one their profile here gets name the same courses in deployment, with the same obligation, however the rows come. |
| Revival.TermsFallBack | apps/api/src/vault-files/routes.ts:508-524 | Per-branch deadlines and recurrences are gone after a revive: every course falls back on its own. |
| Revive.SortByPath | apps/api/src/vault-files/routes.ts:397 | The roles sorted by path length, nothing lost. |
| Revive.ParentsComeFirst | apps/api/src/vault-files/routes.ts:397-401 | In that order every role comes after its parent, so the parent's new id is known when it is needed. |
| Revive.Database.RestoreRoles | apps/api/src/vault-files/routes.ts:396-413 | Every role gets one copy under a fresh id, with its number, its path and its parent's copy; the root comes back visible. |
| Revive.Database.RestorePeople | apps/api/src/vault-files/routes.ts:415-425 | The id map covers exactly the exported people whose username exists, and they become members. |
| Revive.UsernameIsListed | apps/api/src/vault-files/routes.ts:433 | Looking a person up in the payload finds their username exactly when they are listed. |
| Revive.Database.RestorePlacements | apps/api/src/vault-files/routes.ts:427-462 | Placements of people found are restored with kind and delegations; everybody else's become pending invitations, one each; no unique key is violated. |
| Revive.Database.RestoreCourses | apps/api/src/vault-files/routes.ts:464-507 | Every course gets one copy under a fresh id, in deployment. |
| Revive.Database.RestoreCoursePlacements | apps/api/src/vault-files/routes.ts:508-524 | Exactly the placements whose course and role were restored, under their new ids. |
| Revive.Database.RestorePrerequisites | apps/api/src/vault-files/routes.ts:525-531 | Exactly the prerequisite pairs between restored courses, under their new ids. |
| Revive.Database.Revive | apps/api/src/vault-files/routes.ts:360-553 | The transaction turns an export into a copy of the organization under new ids, with an invitation for every placement of somebody not found. |
| Revive.Database.PlacePerson | apps/api/src/roles/helpers.ts:26-62 | Membership and placement are created unless they exist. |
| Revive.Database.AcceptPendingInvitations | apps/api/src/roles/helpers.ts:65-86 | Exactly the username's pending invitations become placements and stop being pending, with one membership; nothing else changes. |
| Revive.Database.Register | apps/api/src/auth/routes.ts:37-61 | A taken username is refused and changes nothing; a new one gets a fresh profile and the placements it was invited to. |
| Revive.RegistrationRestores | apps/api/src/roles/helpers.ts:64-86 | Whoever registers, placements of everybody known are restored and everybody else's are still on offer. |
| Revive.Database.RegisterAll | apps/api/src/roles/helpers.ts:64-86 | After any sequence of registrations the revived organization is still a copy of the exported one; once every username exists it is complete, and everybody's course list names the same courses in deployment with the same obligation. |
| Upload.AnswerIsHonest | apps/api/src/storage/google.ts:684-720 | What is reported as confirmed is how much Google holds, and finished means all of it. |
| Upload.TakenIsPrefix | apps/api/src/storage/google.ts:691-716 | A slice of the source that leaves no gap, however much of it is kept, extends a prefix of the source to a prefix. |
| Upload.RecheckLeavesItOpen | apps/api/src/storage/gateway.ts:441-447 | The recheck after a lost last answer records every byte but not that the upload is complete; a status question records both. |
| Upload.Transfer.PutChunk | apps/api/src/storage/gateway.ts:364-452 | A chunk is forwarded exactly when it comes in turn, has an allowed size and nothing else stands in its way, and then Google takes it and its answer, or the recheck, is recorded; otherwise nothing changes. The row never claims more than Google holds and is complete only when all is held; a chunk of whole units is never refused for its size. |
| Upload.Transfer.PutStatus | apps/api/src/storage/gateway.ts:390-402 | A status answer names exactly what Google holds and completes the row exactly when that is everything. |
| Upload.SendPiece | apps/web/src/lib/storage-crypto.ts:329-357 | One attempt sends the rest of the chunk and asks for the status when its answer does not settle the matter; the next attempt starts inside the chunk, at a place Google confirmed. |
| Upload.SendChunk | apps/web/src/lib/storage-crypto.ts:317-359 | However requests and answers are lost, resuming sends only source bytes that follow what Google confirmed, never claims more than Google holds, and never breaks the 256 KiB rule; when nothing is in the way the chunk is through at the first attempt. A last chunk that is through leaves the row complete exactly when the weather of its attempts does not leave it open. Only 400, 401, 403, 410, 413 and 429 end an upload at once, and the first attempt refused so does, with that status. |
| Upload.SealedFits | apps/api/src/storage/gateway.ts:420 | The gateway's slack of one percent and 1 MiB is enough: no document within 200 MiB is too large once sealed. |
| Upload.Uploader.Flush | apps/web/src/lib/storage-crypto.ts:387-394 | A flushed chunk is held by Google in full, with the row at exactly what was sent, or the upload stops. |
| Upload.Uploader.Feed | apps/web/src/lib/storage-crypto.ts:396-408 | Pieces of any size are cut into full chunks without losing or reordering a byte. |
| Upload.UploadViaGateway | apps/web/src/lib/storage-crypto.ts:361-422 | An upload that reaches the commit has sent exactly the source, Google holds exactly the source, and the row is complete exactly when the weather of the last chunk's attempts does not leave it open. When nothing is in the way every upload of the whole source succeeds and is complete. |
| Upload.OnlyRechecksLeaveOpen | apps/api/src/storage/gateway.ts:441-447 | Weather in which no recheck follows a lost answer leaves no upload open. |
| Upload.LostIsLeftOpen | apps/api/src/storage/gateway.ts:441-447 | Weather that loses the answer to the whole last chunk and the status question after it, and lets the next request through, does. |
| Upload.UploadLeftOpen | apps/web/src/lib/storage-crypto.ts:317-422 | For every source the platform admits there is weather that brings its upload to the commit with every byte held and its row not complete. |
| UploadRuns.InvKept | apps/api/src/storage/gateway.ts:364-452 | Every admission, arrival, answer, write and crash of interleaved requests keeps: Google holds a prefix, the row claims no more, answers in flight were true when given. |
| UploadRuns.AlwaysSound | apps/api/src/storage/gateway.ts:364-452 | In every state of every run Google's bytes are a prefix of the source, confirmedBytes never exceeds them, and completedAt is set only when all are held. |
| UploadRuns.OnlyGrows | apps/api/src/storage/google.ts:675-716 | Google never forgets a byte and a completed upload stays completed. |
| UploadRuns.NoGapArises | apps/api/src/storage/gateway.ts:404-412 | No chunk that reaches Google, however late, starts beyond what Google holds. |
| UploadRuns.AskingCompletes | apps/api/src/storage/gateway.ts:390-402 | Once everything is held, one undisturbed status question completes the upload. |
| UploadRuns.StaleAnswerIsHarmless | apps/api/src/storage/gateway.ts:404-440 | From whatever count the row shows, a chunk that starts there extends what Google holds. |
| Lifecycle.RowMovesToQueue | apps/api/src/storage/adapter.ts:168-191 | An object's row goes only as its deletion is queued, in one transaction. |
| Lifecycle.QueueIsKept | apps/api/src/storage/jobs.ts:45-80 | A deletion row goes only when the file it names is gone. |
| Lifecycle.KnownToQueue | apps/api/src/storage/gdrive-store.ts:938-946 | A file reconciliation has no record of is one already queued. |
| Lifecycle.BooksKept | apps/api/src/storage/jobs.ts:34-145 | Every ticket, write, commit, refusal, attach, release, collection, drain, retry and crash keeps the books: every file has an object row or a deletion row, nothing queued has an object row, every committed object is there. |
| Lifecycle.AlwaysInBooks | apps/api/src/storage/jobs.ts:34-145 | Over every run from an empty store no file in the customer's storage is forgotten. |
| Lifecycle.StoredStays | apps/api/src/storage/jobs.ts:57-65 | No step removes the file of an object that still has its row. |
| Lifecycle.GivenUpIsKept | apps/api/src/storage/jobs.ts:24-39 | A deletion given up on stays listed, unchanged. |
| Lifecycle.TriesStayBounded | apps/api/src/storage/jobs.ts:66-79 | No deletion fails more than eight times. |
| Lifecycle.WaitsDouble | apps/api/src/storage/jobs.ts:67-69 | The waits double from two minutes, and within eight tries the one-day cap is never reached. |
| Lifecycle.TriedAgainExactly | apps/api/src/storage/jobs.ts:33-80 | After its n-th failure a deletion is tried again exactly from 60000 * 2^n ms later on, and after the eighth never, whatever happens meanwhile. |
| Lifecycle.ClaimKept | apps/api/src/storage/jobs.ts:109-122 | With nothing else pending that names the object, a living course whose object's row names it keeps that object until it is deleted or revised itself. |
| Lifecycle.ClaimEndsExactly | apps/api/src/storage/jobs.ts:109-122 | Whatever is pending, a claim ends with exactly these steps: the course is deleted or moves to another object, another course with the object is deleted, a release of the object runs, or another course attaches it. |
| Lifecycle.ClaimOutlasts | apps/api/src/storage/jobs.ts:109-122 | A course keeps its object through every run that has none of them. |
| Lifecycle.ReviseNeedsAnotherObject | apps/api/src/courses/routes.ts:994-1009 | After a new edition the course has its object exactly when the object differs from the previous one. |
| Lifecycle.UnclaimedIsCollected | apps/api/src/storage/jobs.ts:124-143 | The sweep may collect an object exactly when its row names no living course and, if it names none at all, a day has passed since its ticket, whatever courses refer to it. |
| Lifecycle.UploadIsLeftAlone | apps/api/src/storage/jobs.ts:124-133 | In every run an object keeps its row for a day after its ticket unless its upload is refused, a route releases it, a course that refers to it or that its row names is deleted, or it is attached to a course already deleted. |
| Lifecycle.AttachedTooLate | apps/api/src/storage/jobs.ts:109-121 | A run from an empty store after which an object attached to a course already deleted may be swept at once, before the release due for it. |
| Lifecycle.UnclaimedIsLost | apps/api/src/storage/jobs.ts:124-143 | A run from an empty store, with one crash, after which a living course has neither its object's row nor the file. |
| Lifecycle.RevisedIsLost | apps/api/src/courses/routes.ts:994-1009 | A run from an empty store, without a crash, in which revising a course with the object it has costs it row and file. |
| Lifecycle.SharedIsLost | apps/api/src/courses/routes.ts:305-402 | A run from an empty store, without a crash, in which two courses are created with one upload and deleting one costs the other row and file. |
| Lifecycle.Jobs.Drain | apps/api/src/storage/jobs.ts:57-79 | One due deletion is done with or put off with one more attempt counted. |
| Lifecycle.Jobs.DrainDeletionQueue | apps/api/src/storage/jobs.ts:34-82 | Every due row is done with or put off, no other row is touched, and the two counts add up. |
| Lifecycle.Jobs.CollectOrphans | apps/api/src/storage/jobs.ts:109-145 | Exactly the orphans' rows go, each as its deletion is queued, and no file is touched. |
| Exams.Shuffled | packages/shared/src/exams.ts:368-375 | The in-place loop leaves in the copy exactly what dealing by those draws gives. |
| Exams.EveryDrawHappens | packages/shared/src/exams.ts:371 | Every position up to i is drawn by some random number. |
| Exams.DealtPermutes | packages/shared/src/exams.ts:368-375 | Dealing loses nothing and repeats nothing. |
| Exams.EveryOrderIsDealt | packages/shared/src/exams.ts:368-375 | Every permutation of the items is dealt by some draws. |
| Exams.OnlyOneDealGivesIt | packages/shared/src/exams.ts:368-375 | On distinct items each permutation is dealt by exactly one sequence of draws. |
| Marking.RightMeansTheWholeKey | packages/shared/src/exams.ts:144-158 | The size-and-membership test means "exactly the key was chosen" for every selection exactly when no id occurs in the key twice. |
| Marking.ByQuestion | packages/shared/src/exams.ts:162 | The answer map holds the last answer to each question. |
| Marking.TallyUp | packages/shared/src/exams.ts:163-184 | The marking loop's totals and per-question results are those of the paper's questions in order. |
| Marking.GradeExam | packages/shared/src/exams.ts:161-204 | A question is right exactly when it has a key and the last answer to it chose all of the key and nothing else (correct options of distinct ids); right ones earn their points and others nothing; the marks are the sums of the results, and the number of right ones. |
| Marking.GradeIsAPercentage | packages/shared/src/exams.ts:186-204 | Nobody earns more than the paper is worth and the percentage lies in 0 to 100. |
| Marking.PassMark | packages/shared/src/exams.ts:188-199 | The mark is the whole percentage nearest the share earned, so the pass mark is exactly half a percent lower than written, whether marks or, on a paper without any, questions are counted. |
| Marking.TallyIgnoresOrder | packages/shared/src/exams.ts:161-184 | The totals do not depend on the order of the questions. |
| Marking.KeyIgnoresOrder | packages/shared/src/exams.ts:144-158 | Whether an answer is right does not depend on the order of the options. |
| Marking.SelectedIgnoresOrder | packages/shared/src/exams.ts:162-168 | With one answer a question, the order of answers does not matter. |
| Marking.GradeIgnoresDealing | packages/shared/src/exams.ts:161-204 | Questions, options and answers in any order give the same marks. |
| Marking.DealtPaperIsMarkedAsWritten | apps/api/src/exams/routes.ts:97-113 | A paper shuffled by any draws is marked exactly as the paper as written, for any answers, several to one question included. |
| Limiters.SlidingLimiter.Allow | apps/api/src/storage/rate.ts:9-23 | A request is granted exactly when fewer than the limit were granted to its key within the window; neither pruning nor the sweep changes an answer. |
| Limiters.SlidingLimiter.Sweep | apps/api/src/storage/rate.ts:18-21 | Dropping keys with nothing recent forgets nothing that can still count. |
| Limiters.RecentIsCounted | apps/api/src/storage/rate.ts:9-23 | The grants counted against a request are exactly those in the window that ends with it. |
| Limiters.AtMostLimit | apps/api/src/storage/rate.ts:9-23 | In every half-open interval of the window's length at most the limit is granted. |
| Limiters.FixedWindow.RateLimit | apps/api/src/security.ts:16-26 | A request opens a window, or is granted in the open one while fewer than the maximum were. |
| Limiters.AtMostTwiceLessOne | apps/api/src/security.ts:16-26 | In every half-open interval of the window's length at most twice the maximum less one is granted. |
| Limiters.Burst | apps/api/src/security.ts:16-26 | That bound is reached by requests around the end of a window. |
| Budget.CrossedIsHighest | apps/api/src/storage/gateway.ts:122-125 | The share reported is the highest one reached, when the addition crossed any, and higher than every one before. |
| Budget.WarningsKept | apps/api/src/storage/gateway.ts:114-125 | The shares an organization has been told of stay strictly rising and end at the highest reached. |
| Budget.ConservedKept | apps/api/src/storage/gateway.ts:99-112 | What the platform has counted is what its organizations have plus what is on its way to them. |
| Budget.CeilingsKept | apps/api/src/storage/gateway.ts:85-112 | Usage with everything in flight stays below the limit plus what was in flight at the last admission. |
| Budget.AlwaysInBudget | apps/api/src/storage/gateway.ts:85-150 | In every run of a month: totals agree when idle, each share is announced at most once and in rising order, nothing is announced below 60 percent and 100 exactly when the allowance is used up, and usage is below the limit plus the transfers in flight at the last admission. |
| Budget.RefusedForTheMonth | apps/api/src/storage/gateway.ts:85-97 | Nobody is refused while their organization and the platform have allowance left, and whoever is refused is refused for the rest of the month. |
| Budget.Ledger.RecordBytes | apps/api/src/storage/gateway.ts:99-125 | For a transfer of whatever part of its size, the two row updates and the warning loop are the two steps of the month's model. |
| Utf8.ScalarRoundTrip | packages/shared/src/storage.ts:75-88 | A character's encoding by section 3 of RFC 3629 reads back as the character, whatever follows. |
| Utf8.DecodeEncode | apps/api/src/storage/gdrive-store.ts:549-555 | The encoding of well-formed text reads back as the text. |
| Utf8.CountUtf8 | packages/shared/src/storage.ts:75-88 | The loop counts what the specification of the length counts, skipping the unit after a high surrogate. |
| Utf8.LengthOfEncoding | packages/shared/src/storage.ts:75-88 | On well-formed text the count is the length of the UTF-8 encoding. |
| Utf8.PairedLength | packages/shared/src/storage.ts:75-88 | So it is whenever no high surrogate stands alone, whatever low ones do. |
| Utf8.CountIsExact | packages/shared/src/storage.ts:75-88 | For every text the count is the length of the encoding exactly when the surpluses of its lone high surrogates cancel: one at the end counts one too many, one before a character counts one less than that character's bytes, one before a pair none. |
| Utf8.LoneSurrogateMiscounts | packages/shared/src/storage.ts:75-88 | So one high surrogate alone, anywhere in a text, is miscounted exactly when it ends the text or stands before a character of two or three bytes. |
| Utf8.WellFormedIsWellFormed | apps/api/src/storage/gdrive-store.ts:549-555 | Replacing lone surrogates leaves none. |
| Utf8.UnchangedMeansWellFormed | apps/api/src/storage/gdrive-store.ts:549-555 | Text is unchanged exactly when it was well-formed. |
| Utf8.ReplacingOnceIsEnough | apps/api/src/storage/gdrive-store.ts:549-555 | Replacing twice is replacing once. |
| Utf8.EncodesTheSame | apps/api/src/storage/gdrive-store.ts:549-555 | The replacement is the one the encoder makes: the bytes written are the same. |
| Utf8.DigestKeepsLength | apps/web/src/lib/storage-crypto.ts:266-268 | Writing a digest over the placeholder keeps the header's encoded length. |
| Utf8.QuotedIsWellFormed | apps/api/src/storage/gdrive-store.ts:592-609 | What `JSON.stringify` writes for a string has no lone surrogate. |
| Utf8.HeaderText.IsWellFormedText | apps/api/src/storage/gdrive-store.ts:592-609 | The header template is well-formed text for every type and file name. |
| Utf8.AnnouncedSizeIsStored | apps/api/src/storage/gdrive-store.ts:592-609 | The stored size fixed from the placeholder header is the size of the object once the real digest is written, whatever the type and the file name are. |

## Left out

- Real cryptography, key wrapping, password hashing and token signing: functions with the laws above.
- HTTP, server-sent events, the ORM, React and the Google sign-in: the table updates and answers only.
- Header JSON and base64: reading inverts writing; malformed JSON is "no header", a frame size of zero in a stored
  header is not represented.
- Two requests sharing one pending promise in the block cache: a run is fetched, then cached, in one step.
- Service worker registration, ticket renewal by the page and the 410 answer for an unknown stream: `Serve` starts
  from a registered stream.
- Numbers in a Range header beyond 2^53: digits are read exactly.
- Access checks before a gateway read, except as statuses in `Upload`: tickets, epochs and store states are inputs.
- The fallback to an unpinned revision in the gateway's read: the upstream is whatever the reply says.
- Pruning of what is over: session rows ended, and refresh-token rows expired or revoked, fifteen days ago are deleted
  by the nightly job (`apps/api/src/compliance/routes.ts:606-612` and `649-651`), and here they stay in their tables.
- SessionRuns.EndedForGood: is about rows still there, and takes the nightly job's three updates as one step.
- Device names and `lastUsedAt`: easy, and nothing reads them here.
- Role names, avatars, member counts and the membership row removed with a last placement.
- `canCreateContent`, `canProposeContent` and `canGrantCapability`: single-prefix tests over the same paths.
- Deletion of a role's invitations and requests along with the role.
- The join, course and content-review requests: the visibility and deletion approvals are the ones that touch the tree.
- Exam attempt counts, entry reasons and display names in the branch report.
- Completion records in a revive: they are restored for people found and dropped for the others.
- Usernames in upper case: registration and invitations are compared as stored.
- Plan stamps, coins and access codes in a revive.
- A file that grows while it is uploaded: the producer hands over the source or a beginning of it.
- Google's errors other than a lost answer and an expired session, and quota checks before an upload.
- Objects deleted or replaced in the customer's storage by hand, a disconnected or switched storage, and writes through
  a presigned URL after commit: the books assume the store stays connected and the browser writes only before commit.
- `migrateInlineFiles` and `.bkp` restore: the first rewrites a course's reference outside its transaction, the second
  may empty a role of owners.
- Prerequisite cycles longer than two documents: the code does not look for them.
- Owner messages on storage health, and the mailbox.
- Rounding of floating-point numbers: marks and shares are exact.
- HTML, CSS and embed sanitizing, S3 request signing, notification texts and prices.
- Sliding limiter windows that differ between keys: the sweep uses the caller's window for every key.
- A crash between the two usage updates of `recordBytes`: it would leave the platform's total ahead for the month.
- Reach.BothViews: does not compare the overdue flag, which the two views compute from different obligations; see
  Lateness.OverdueAgreesExactly.
- People with placements outside the branch: the report sees only those inside it, so the two views are compared for
  people who have all of theirs there.
- Revival.ReachIsRestored: does not compare clocks, because a revive starts every placement's clock again.
- Lifecycle.ClaimKept: assumes nothing is left to do that would release the object or attach it elsewhere;
  Lifecycle.ClaimEndsExactly does not.
- A person with several completion records for one course: the table has no key against it
  (`apps/api/prisma/schema.prisma:465-479`), the list then takes the newest and the report the first found, while
  `Lateness` hands both views one record.
- What the page registers for an encrypted object is taken to be the sealed object's own header.
