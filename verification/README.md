# 9P2000 for Zephyr: a verified model

This project models the protocol core of a 9P2000 library for Zephyr in Dafny 4.11 and proves what
that core promises. `dafny verify dfyconfig.toml` checks everything.

What is modelled, and the main results:

- **Server** (`src/server.c`). `Server` is the server as an object whose methods update the fid table,
  the username and auth pools and the parked reads in place, loop by loop; every method is proved equal
  to a function in `Session` or `Dispatch`. `ServerRuns` lets one dispatcher, any number of completing
  threads and a cleanup contend for `tx_buf_mutex` and `pending_lock`, one lock operation per step.
  For every run: each request is answered exactly once, or parked once, or dropped once
  (`RequestsConserved`); a handle whose read is over is refused for good (`StaleForever`); after an
  Rflush the flushed read stays silent (`FlushIsFinal`); reference counts, auth slots, fid numbers and
  parked reads are exact (`TablesExact`); identities shown to the application were verified in the same
  session, by a dispatch whose response the application accepted (`IdentitiesAreVerified`), and a fid shows
  one identity for as long as it is bound (`IdentityForLife`); data access follows an open that allows it (`AccessWasOpened`) and
  an opened fid is not walked from (`WalksStartUnopened`, `OpenFidsRefuseWalks`); the teardown gate counts
  exactly, a waiting cleanup can always get through, and under every schedule the completers inside take a
  fixed number of steps to get out (`GateCountsCompleters`, `CleanupCanPass`, `WayOutIsBounded`,
  `NobodyEntersAfterCleanup`).
- **One dispatch** (`AuthVerdicts`, `Admission`, `FileAccess`, `ReadOutcomes`, `FidEndings`). For each kind
  of request, when it succeeds, what it then answers and leaves in the tables, and that otherwise it is
  refused and leaves them alone, stated of the dispatch of a frame. Nothing but an accepted response
  verifies an identity (`OnlyAcceptedVerify`); a policy that says no is obeyed (`PolicyIsObeyed`); an Rread
  carries the bytes the filesystem read (`ReadOutcome`); every node is given back once (`ClunkOutcome`,
  `VersionOutcome`, `CleanupOutcome`).
- **One Twalk, one Tattach** (`WalkBalance`, `AttachPaths`). Nodes handed out by the filesystem are given
  back exactly once except the one that is kept; the reply carries the qids of the walked prefix; newfid is
  bound exactly when everything was walked. The aname of an attach is walked in the same way, and
  `AnameTakenIff` says exactly when the aname walked is the one that was sent.
- **Client** (`src/client.c`). `Client` has the tag and fid tables with one buffer region per tag;
  `ClientRuns` interleaves any number of requests with receive callbacks, timeouts, retries and flushes.
  For every run: a request returns only bytes of a frame with its own tag (`WaitersGetTheirOwn`), slots
  never overlap (`SlotsApart`), and slots are conserved (`SlotsConserved`): only version calls leak one. The
  fid table holds the fids of auth, attach and walk calls in flight and those they established that were not
  given back, each once (`FidTableExact`). A reply with a call's tag is what the call returns, as bytes or as
  the error it spells (`ReplyIsReturned`), and an errno of the server's filesystem arrives as itself
  (`FsErrorArrives`). The tag counter may come round any number of times. `ClientNotag` shows what a leaked slot does: the next
  version call, and the request that is handed tag 0xFFFF, are never answered.
- **Both together** (`Connection`). Client and server run over a connection that keeps order and may
  lose anything. Every fid the client holds is bound at the server (`HeldFidsAreBound`), and after
  negotiation every Twrite, every Rread and every parked read fits what both sides hold
  (`MessagesFitBoth`).
- **Wire and paths** (`src/message.c`, `src/proto.c`). Builders write into a buffer through an advancing
  offset; frames read back; a path given to the client reaches the filesystem component by component
  (`PathReachesFilesystem`, `WholePathWalked`).
- **Framing** (`src/transport_uart.c`, `src/transport_l2cap_client.c`). A byte-wise and a chunk-wise
  reassembler deliver the same frames however the stream is cut (`FramersAgree`); on any stream, damaged or
  not, every byte is accounted for (`UartAccounts`, `L2capAccounts`).
- **Namespace and union filesystem** (`src/namespace/namespace.c`, `src/union_fs.c`). Path normalisation
  is reduction on a stack of components for the paths described by `Clean` (`NormalReduces`, `CleanIsExact`);
  `NormalKeeps` says what it makes of every path, and `RightIff` exactly which come out right; after any run of mounts and unmounts a walk lists every prefix's union, longest prefix
  first, in search order (`WalkListsUnions`); both longest-prefix searches choose the same mount
  (`SameMountChosen`).
- **RAM filesystem** (`src/ramfs.c`). Paged directory reads return every record once, whole and in order
  (`PagedListing`), and a reader that goes by the size fields gets the children back (`ListingReadBack`).

## How to read it

- Filesystem, transport MTU, clock, random challenge and application callbacks answer through `Env`, a
  parameter of each dispatch; theorems hold for every answer. The policy and the verdict on a response are
  functions of what the application is shown: identity, node and mode; identity, public key, signature and
  challenge. A read is assumed to return no more than it
  was asked for (`FsHonest`).
- Every frame is admitted. Several handlers read fixed fields, or as many bytes as a length field says,
  without looking at the length of the frame; what they find behind its end, or behind the end of the text
  constant they fall back to, is `behind` in `Env` (`Padded`, `Literal`, `Seen`).
- Histories are `Trace` values that only grow. The server's `log` records what it called and when a fid
  was bound, opened or an identity verified; `rid` numbers requests. No branch looks at either.
- The session invariant (`SessionOk`): a name's count is the number of in-use fids that hold it, used auth
  slots and in-use auth fids match one to one, in-use fids are distinct, names shown as identities were
  verified since the last reset, and every open entry has its open recorded since it was bound. The server
  invariant (`ServerOk`) adds that replies, parkings and drops of every request total one, that replies
  carry their request's tag, that parked reads differ in fid, tag and token, and that a handle that still
  fits a slot belongs to the read parked there.
- Integers are unbounded; the 8-bit reference counts, 16-bit tags, 32-bit tokens, fids and sizes and the
  64-bit clock difference are reduced explicitly where the code lets them wrap.
- `FrameOk` in `ServerRuns` bounds a run to fewer than 2^32 parkings; `TokenFitsAgainIff` shows that this
  bound is exact. `ConfigOk` asks for a transmit buffer of at least 217 bytes (the longest fixed reply)
  and at most 255 fids. `FreshTag` in `ClientRuns` excludes that the tag counter comes round to a tag that a
  call in flight still uses, and a version call begins only while no other call was handed 0xFFFF;
  `FreesOwnIff` shows what both are needed for. The counter itself is not bounded. `AlwaysFresh` in
  `ClientFids` asks the same of the fid counter; `NoWrapIsFresh` derives it for fewer than 2^32 fids.

Where code and documentation disagree, the model follows the code:

- `include/zephyr/9p/client.h` describes a tag entry without buffers and one shared response buffer; the
  code has one buffer per tag.
- The comment above `send_and_wait` lists write among the operations that may be repeated; write passes
  no retries.
- The comment above `check_perm_or_deny` says an unauthenticated fid shows the claimed name; the code
  shows the empty string.
- `ninep_client_version` frees its slot by a tag it has overwritten, so the slot stays in use. A reply that
  carries NOTAG goes to the first slot that does (`NotagCompletesIff`): a call that waits for one behind a
  slot left behind is never answered (`DeafIsUnanswered`), and there are runs from power-up to that point
  for a second version call and for the request handed 0xFFFF (`SecondVersionDeaf`, `WrappedRequestDeaf`).
- An attach with an empty uname and an authenticated afid looks for the aname behind the length of the
  authenticated identity, not behind the received uname. The aname taken is the one sent if and only if the
  attach is a guest's, or names its user, or the identity is empty, or there is no aname (`AnameTakenIff`);
  with an aname shorter than the identity the fid ends, without an error, at the root (`ShiftedEndsAtRoot`,
  and `NamelessAttachMissesSubtree` for one frame).
- Normalising "/x./y", "/a../b" and "/..//b" gives "/xy", "/b" and "//b" (`UncleanPaths`). `RightIff` and
  `WithoutUpsIff` say exactly when the result is the reduced path.

## Model

| member | source | states |
|---|---|---|
| Server.Server.constructor | src/server.c:1678-1727 | initialisation leaves empty tables and the default message size, and with them the server invariant |
| Server.Server.Find | src/server.c:118-126 | the first in-use entry for a fid, or none; changes nothing |
| Server.Server.Alloc | src/server.c:129-152 | refuses a fid that is in use or a full table; otherwise the first free entry is reset except for its authenticated flag, and nothing else changes |
| Server.Server.ReleaseName | src/server.c:62-67 | a reference is given back unless the index is out of range or the count is already zero |
| Server.Server.FreeAuthState | src/server.c:97-102 | the auth slot becomes unused if the index is in range |
| Server.Server.Vacate | src/server.c:161-171 | what an entry holds of both pools goes back with it |
| Server.Server.Free | src/server.c:155-172 | freeing an unknown fid changes nothing; a known one gives back its name and auth slot |
| Server.Server.InternName | src/server.c:32-59 | a name already held is shared, otherwise the first free entry takes it (cut to 63 bytes), otherwise POOL_NONE and no change |
| Server.Server.FindAuth | src/server.c:83-94 | the first unused auth slot, or none |
| Server.Server.Identity | src/server.c:278-286 | the empty identity unless the fid is authenticated and holds a live name |
| Server.Server.MayDo | src/server.c:304-340 | permission is granted when no policy applies, denied when the path cannot be told, and otherwise as the policy says about the fid's identity, node and mode; PolicyIsObeyed says what a denial leads to |
| Server.Server.ParkRead | src/server.c:185-200 | the first free slot takes the read under the next generation token; a full table changes nothing |
| Server.Server.CancelReads | src/server.c:204-213 | every selected parked read is answered with zero bytes and freed, in table order; no other changes |
| Server.Server.ResetTables | src/server.c:395-419 | every live node is clunked once in table order and all three tables are empty afterwards |
| Server.Server.Tversion | src/server.c:343-425 | a bad or unknown version leaves the session as it is; an accepted one drops parked reads without replies, resets the session and adopts the negotiated size |
| Server.Server.Authority | src/server.c:479-522 | an afid counts only with a completed handshake and a matching uname, whether or not authentication is required |
| Server.Server.WalkToAname | src/server.c:570-625 | the aname is walked component by component and intermediate nodes are given back; 0 when one is missing |
| Server.Server.Tattach | src/server.c:429-633 | for a frame of any length, the new state is exactly HandleTattach of the old one: authority first, then a free entry, the interned name, the root and the aname, with the entry given up again when root or aname is missing; a uname that runs past the frame becomes a prefix of the default one |
| Server.Server.WalkElements | src/server.c:698-764 | the element loop, with its three ways out and what each gives back |
| Server.Server.Twalk | src/server.c:636-793 | for a frame of any length, the new state is exactly HandleTwalk of the old one, a clone being a walk of no names; see TwalkHandsNames, TwalkGivesBack, TwalkReplies and TwalkBinds |
| Server.Server.Topen | src/server.c:796-858 | for a frame of any length, the new state is exactly HandleTopen of the old one: one open per fid, permission asked before the filesystem, iounit from the negotiated size and the MTU |
| Server.Server.Tcreate | src/server.c:1185-1256 | the new state is exactly HandleTcreate of the old one: on success the fid stands at the new node and is open, otherwise it is where it was |
| Server.Server.Tauth | src/server.c:1078-1156 | for a frame of any length, the new state is exactly HandleTauth of the old one: an afid without a node and a fresh challenge slot, or neither |
| Server.Server.ReadChallenge | src/server.c:886-921 | an auth fid yields its challenge while it is fresh and is marked as issued |
| Server.Server.JudgeResponse | src/server.c:1290-1387 | the checks of the handshake in order, the last of them the application's verdict on identity, key, signature and challenge; success marks the slot and renames the fid; see ResponseJudged |
| Server.Server.ReadNow | src/server.c:950-1012 | an older read on the fid or tag is cancelled first; a deferred read is parked and its handle issued, otherwise the slot is released and the reply sent; see ReadOutcome |
| Server.Server.Tread | src/server.c:861-1012 | the new state is exactly HandleTread of the old one: auth fids yield their challenge, others must be open for reading, and the count is cut to the buffer and the negotiated size |
| Server.Server.Twrite | src/server.c:1259-1430 | the new state is exactly HandleTwrite of the old one: auth fids take a response, others must be open for writing before the filesystem is called |
| Server.Server.Tflush | src/server.c:1159-1182 | the flushed reads are answered before the Rflush |
| Server.Server.Tclunk | src/server.c:1493-1537 | parked reads of the fid are answered, its node clunked and the fid freed; an unknown fid is answered too |
| Server.Server.Tremove | src/server.c:1433-1472 | the fid is freed only when the filesystem removed the file |
| Server.Server.ProcessMessage | src/server.c:1540-1606 | one frame, whatever its length, takes the server from one state to the next; a frame without a usable header changes nothing; the server invariant is kept |
| Server.Server.ReadComplete | src/server.c:1630-1659 | only a matching slot and token is answered, cut to what was asked for and to the buffer, and freed either way; the server invariant is kept and the reply always fits the buffer |
| Server.Server.CleanUp | src/server.c:1750-1781 | parked reads are dropped, every live node is clunked and every pool reference given back; the server invariant is kept and no fid is left in use |
| Dispatch.CancelKeeps | src/server.c:204-213 | cancelling touches exactly the selected parked reads and the replies |
| SessionInvariant.InternMeans | src/server.c:32-59 | an interned name reads back as the name that was given, cut at 63 bytes and at its first NUL |
| SessionInvariant.AuthFidHasSlot | src/server.c:1078-1156 | an in-use auth fid has a live auth slot of its own |
| SessionInvariant.HeldNameIsLive | src/server.c:32-67 | a name held by an in-use fid has a positive count |
| SessionInvariant.FidFreed | src/server.c:155-172 | freeing keeps counts, auth slots and fid numbers exact |
| SessionKept.ResetKeeps | src/server.c:392-419 | the session reset keeps the session invariant |
| SessionKept.AttachKeeps | src/server.c:429-633 | every outcome of an attach keeps the session invariant |
| SessionKept.AuthenticIsVerified | src/server.c:482-517 | an attach as an authenticated identity uses one that was verified in this session |
| SessionKept.WalkKeeps | src/server.c:636-793 | every outcome of a walk keeps the session invariant |
| SessionKept.AuthKeeps | src/server.c:1078-1156 | every outcome of a Tauth keeps the session invariant |
| SessionKept.AuthWriteKeeps | src/server.c:1290-1387 | every outcome of a response keeps the session invariant |
| SessionKept.WriteKeeps | src/server.c:1259-1430 | every outcome of a Twrite keeps the session invariant |
| ServerInvariant.InitialOk | src/server.c:1678-1727 | the initial state satisfies the invariant |
| ServerInvariant.CancelOk | src/server.c:204-213 | cancelling keeps requests balanced and answers what it frees |
| ServerInvariant.ParkOk | src/server.c:185-200 | parking keeps fids and tags of parked reads apart and tokens distinct |
| ServerInvariant.ProcessOk | src/server.c:1540-1606 | one dispatch keeps the server invariant |
| ServerInvariant.CompleteOk | src/server.c:1630-1659 | one completion keeps the server invariant |
| ServerInvariant.CleanupOk | src/server.c:1750-1781 | cleanup keeps the server invariant |
| ServerRuns.ProcessGrows | src/server.c:1540-1606 | one dispatch forgets no reply, drop, handle or event on record |
| ServerRuns.RunGrows | src/server.c:1540-1667 | what is on record in some state of a run is on record in every later one |
| SessionLog.HandlerExtends | src/server.c:343-1537 | every handler only adds to the log of events |
| ServerRuns.StepOk | src/server.c:1608-1667 | every lock operation of every thread keeps the invariant of the concurrent server |
| ServerRuns.RunOk | src/server.c:1540-1667 | every interleaving keeps the invariant of the concurrent server |
| ServerTheorems.RequestsConserved | src/server.c:1540-1606 | every request received is answered exactly once with its own tag, or parked exactly once, or dropped exactly once |
| ServerTheorems.StaleForever | src/server.c:1630-1635 | once a parked read is over, its handle is refused in every later state and sends nothing |
| ServerTheorems.CompletionAnswersItsOwn | src/server.c:1630-1659 | a completion answers the read its handle was issued for, under that read's tag, with the front of the data handed in, as long as count and buffer allow, and frees its slot; or it is stale and changes nothing |
| ServerTheorems.NoSecondReply | src/server.c:1608-1667 | once a request has its reply, no later step of any thread sends it another |
| ServerTheorems.CancelAnswers | src/server.c:204-213 | cancelling answers every selected read |
| ServerTheorems.FlushIsFinal | src/server.c:1159-1182 | the read parked under the flushed tag has its one reply before the Rflush and gets no other in any later state |
| ServerTheorems.TablesExact | src/server.c:32-172 | reference counts equal the fids that hold them, auth slots match auth fids one to one, in-use fids are distinct, parked reads differ in fid and tag |
| ServerTheorems.IdentitiesAreVerified | src/server.c:278-286 | an identity shown to the filesystem or the policy is empty, or earlier in the same session a dispatch put a response to its fresh challenge to the application and the application said yes |
| ServerTheorems.AccessWasOpened | src/server.c:931-938 | a filesystem read or write follows, since its fid was bound, an open or create whose mode allows it |
| ServerTheorems.WalksStartUnopened | src/server.c:652-657 | no Twalk, with names or without, gets under way from a fid opened since it was bound, and no name is walked from one |
| ServerTheorems.OpenFidsRefuseWalks | src/server.c:646-657 | a Twalk from a fid opened since it was bound gets one error and changes nothing, whatever its names and newfid |
| ServerTheorems.RreadsFitMsize | src/server.c:940-947 | each Rread on an ordinary fid fits the negotiated size, and 11 plus the count of every parked read does |
| ServerTheorems.GateCountsCompleters | src/server.c:1620-1664 | the counter equals the number of completers inside |
| ServerTheorems.NobodyEntersAfterCleanup | src/server.c:1743-1748 | once cleanup has left its wait nobody is inside, and nobody enters in any later state |
| ServerTheorems.CleanupCanPass | src/server.c:1743-1748 | from every state in which cleanup waits there is a continuation of bounded length, made of lock holders letting go and completers advancing, that brings it past its wait |
| ServerTheorems.StepShortensWayOut | src/server.c:1628-1664 | once the gate is closed, each lock operation of a completer inside brings the way out one step nearer, and no other step of any thread changes it |
| ServerTheorems.WayOutIsBounded | src/server.c:1743-1748 | on every run from there, the lock operations done by completers inside and those still to be done add up to the same number, and nobody is inside exactly when none is left |
| ServerTheorems.PendHolderLetsGo | src/server.c:1620-1626 | whoever holds pending_lock has an enabled step that releases it |
| ServerTheorems.TxHolderLetsGo | src/server.c:1630-1659 | whoever holds tx_buf_mutex has an enabled step that releases it and leaves pending_lock alone |
| ServerTheorems.InsiderAdvances | src/server.c:1628-1664 | with both locks free a completer inside can go on |
| ServerTheorems.TokenFitsAgainIff | src/server.c:188-197 | a kept handle fits a later parking of its slot exactly after a multiple of 2^32 parkings |
| AuthVerdicts.ResponseJudged | src/server.c:1290-1387 | a Twrite to an auth fid is accepted exactly when its bytes are there, 96 or 129 of them, the challenge was read and is at most a minute old, there is a callback, and it says yes to the slot's identity and challenge and the response's key and signature; then it is answered with the count, the slot is authenticated and the identity is the one event on record; otherwise nothing changes and there is one error |
| AuthVerdicts.OnlyAcceptedVerify | src/server.c:1540-1606 | a dispatch of any other frame, or of a response that is not accepted, puts no identity on record and makes no slot authenticated |
| AuthVerdicts.VerdictsWereGiven | src/server.c:1354-1387 | on every run, each verified identity on record was put there by the dispatch of an accepted response |
| Admission.AuthOutcome | src/server.c:1078-1156 | a Tauth binds its afid to an unissued, unproven challenge for the claimed name exactly when the server authenticates, the name has 1 to 63 bytes and there is room in both tables; otherwise it is refused and binds nothing |
| Admission.AuthorityMeans | src/server.c:479-522 | a completed handshake admits its own identity, named or not, and no other name; without one a guest is admitted unless authentication is required |
| Admission.AttachOutcome | src/server.c:429-633 | a Tattach binds its fid exactly when its authority is good, there is room and the aname leads to a node; the fid stands there and shows the identity vouched for, none for a guest, and none when the name pool is full; otherwise it is refused and binds nothing |
| Identities.WalkPassesIdentity | src/server.c:766-785 | a fid bound by a walk shows the identity of the fid the walk started from |
| Identities.InternStays | src/server.c:32-59 | interning a name overwrites no name that some fid holds |
| Identities.IdentityForLife | src/server.c:278-286 | on every run, a fid that stays bound keeps its number and the identity it shows |
| FileAccess.PolicyIsObeyed | src/server.c:304-340 | with a policy that says no, or a path that cannot be told, a Topen, Tcreate or Tremove changes no table, calls no filesystem operation and is answered with one error, the policy's if the request was otherwise in order |
| FileAccess.OpenOutcome | src/server.c:796-858 | a Topen succeeds exactly when the fid names a node that is not open, the policy allows the mode and the filesystem agrees; the fid is then open in that mode with the largest unit that fits message and MTU; otherwise no table changes and there is one error |
| FileAccess.CreateOutcome | src/server.c:1185-1256 | a Tcreate succeeds exactly when it is whole, the fid names a node, creation is supported, the policy allows writing and the filesystem returns a node; the fid then stands open at that node; otherwise no table changes and there is one error |
| FileAccess.RemoveOutcome | src/server.c:1433-1472 | a Tremove unbinds its fid exactly when the fid names a node, removal is supported, the policy allows writing and the filesystem removed it; a remove that fails keeps the fid |
| FileAccess.WriteOutcome | src/server.c:1389-1430 | a Twrite that is no response calls the filesystem once exactly when the fid is open for writing, and is answered with the count the filesystem gave, or one error |
| FileAccess.StatOutcome | src/server.c:1015-1059 | a Tstat changes nothing and is answered with what the filesystem wrote, if the fid names a node and it fits, otherwise with one error |
| FileAccess.FsErrorIsReported | src/server.c:226-264 | an error of the filesystem on an open, create, write, remove or stat is the answer, in the text of its errno |
| FileAccess.UnservedOutcome | src/server.c:1475-1602 | a Twstat or an unknown request changes nothing and is refused |
| ReadOutcomes.CancelAnswersAll | src/server.c:204-213 | a cancellation answers each read it picks once, with no bytes, in slot order, and no other |
| ReadOutcomes.ReadOutcome | src/server.c:923-1012 | a Tread on a fid open for reading calls the filesystem once; the last reply is an Rread of exactly the bytes read, or the error; a deferred read is parked with the count asked for, cut to buffer and message size, under a new handle, or answered with no bytes when every slot is taken |
| ReadOutcomes.ChallengeOutcome | src/server.c:886-921 | an auth fid yields the part of its challenge asked for and is marked as issued while the challenge is at most a minute old; otherwise one error and no change |
| ReadOutcomes.UnreadableOutcome | src/server.c:861-938 | any other Tread is refused and changes nothing, the parked reads included |
| FidEndings.ClunkOutcome | src/server.c:1493-1537 | a Tclunk always gets its Rclunk; a bound fid is unbound, its node given back once, the reads parked on it answered first, and no other entry or slot touched |
| FidEndings.FlushOutcome | src/server.c:1159-1182 | a Tflush answers exactly the reads parked under the flushed tag, then itself, and touches nothing else |
| FidEndings.VersionOutcome | src/server.c:343-425 | a Tversion for this protocol empties every table, gives the node of each ordinary fid back once in table order, and settles on the least of offer, buffer and MTU; any other changes nothing |
| FidEndings.CleanupOutcome | src/server.c:1750-1781 | cleanup leaves no fid bound and no read parked, sends nothing, and gives each node back once in table order |
| WalkBalance.TwalkHandsNames | src/server.c:698-731 | over any filesystem, the names handed over are the frame's, up to and including the first not found |
| WalkBalance.TwalkGivesBack | src/server.c:703-777 | over a filesystem that has a clunk and hands out handles of its own, every node found is clunked exactly once except the one newfid keeps; the start node never is |
| WalkBalance.TwalkReplies | src/server.c:741-793 | the Rwalk carries exactly the qids of the walked prefix; otherwise an error |
| WalkBalance.TwalkBinds | src/server.c:766-785 | newfid stands at the last node exactly when the whole path was walked and allocation succeeded; otherwise the table is untouched |
| AttachPaths.AnameIsWalk | src/server.c:583-622 | the aname loop does to the components of the aname what the element loop of a Twalk does to its names |
| AttachPaths.AttachHandsNames | src/server.c:570-625 | over any filesystem, the names an attach hands over are the components of its aname, up to and including the first missing one |
| AttachPaths.AttachStandsAtAname | src/server.c:570-633 | the fid stands at the last component's node, the root for none, exactly when no component is missing; otherwise the attach fails |
| AttachPaths.AttachGivesBack | src/server.c:583-615 | over a filesystem that has a clunk and hands out handles of its own, every node found on the way is clunked exactly once except the one the fid keeps; the root never is |
| AttachPaths.AnameTakenIff | src/server.c:507-568 | the aname taken is the one sent if and only if the attach is a guest's, or names its user, or the authenticated identity is empty, or there is no aname |
| AttachPaths.ShiftedEndsAtRoot | src/server.c:507-568 | otherwise, with an aname shorter than the identity, the attach succeeds at the root and walks nothing |
| AttachExample.NamelessAttachMissesSubtree | src/server.c:507-568 | one frame for which that happens, in the state that Tauth, Tread and Twrite lead to from power-up |
| AttachExample.NamedAttachFindsSubtree | src/server.c:507-568 | in the same state the same attach with the user named reaches the subtree |
| AttachExample.ProvenReached | src/server.c:886-1387 | a handshake of three frames, dispatched one after the other from power-up, keeps the server invariant and leaves the afid authenticated |
| ServerFids.ProcessKeepsFids | src/server.c:1540-1606 | a bound fid stays bound unless the frame is a Tversion or clunks or removes that fid |
| ServerFids.AuthBinds | src/server.c:1078-1156 | an Rauth means that the afid is bound |
| ServerFids.AttachBinds | src/server.c:429-633 | an Rattach means that the fid is bound |
| ServerFids.WalkBinds | src/server.c:636-793 | an Rwalk with as many qids as names means that newfid is bound |
| ServerFids.ProcessSends | src/server.c:1540-1606 | one dispatch answers its own request or reads that were parked, and parks at most its own Tread |
| Client.Tags.constructor | src/client.c:422-432 | all slots start free |
| Client.Tags.Find | src/client.c:41-49 | the first live slot with the tag, or none |
| Client.Tags.Alloc | src/client.c:24-38 | the first free slot takes the next tag, incomplete and without error; no slot, no change |
| Client.Tags.Free | src/client.c:52-58 | the first live slot with the tag becomes free, and nothing else |
| Client.Tags.Fill | src/client.c:192-196 | copying a frame into a slot's region leaves every other slot's bytes alone |
| Client.Tags.Recv | src/client.c:168-252 | a frame completes the slot of its tag with its bytes and its error, or with an error when it is too large; a frame nobody waits for changes nothing |
| Client.Fids.Alloc | src/client.c:64-80 | the first free entry takes the next fid number |
| Client.Fids.Free | src/client.c:82-94 | the entry of the fid becomes free, and nothing else |
| Client.FilledView | src/client.c:422-432 | regions of the pool do not overlap |
| ClientRuns.FreeExact | src/client.c:52-58 | freeing by tag finds exactly the slot the request took or, under NOTAG, a leaked slot before it; after a version call, nothing |
| ClientRuns.EndOk | src/client.c:458-530 | a request that returns keeps the invariant of the slots; ReturnSettlesFid says what happens to its fid |
| ClientRuns.EndLeavesOthers | src/client.c:458-530 | a request that returns leaves the slots of every other request in flight, and their bytes, as they were |
| ClientRuns.TimeoutOk | src/client.c:288-344 | giving up, retrying and flushing keep the invariant |
| ClientRuns.ResumeOk | src/client.c:346-368 | coming back from the backoff keeps the invariant, with a late reply or without |
| ClientRuns.StepOk | src/client.c:168-369 | every step of every thread and of the receive callback keeps the invariant |
| ClientTheorems.WaitersGetTheirOwn | src/client.c:259-280 | on every run, bytes returned by a request are a frame with its own tag received after it began |
| ClientTheorems.SlotsApart | src/client.c:422-432 | on every run, no slot serves two requests, nor a request and its flush |
| ClientTheorems.ReturnGivesBack | src/client.c:286-369 | in every step in which a request returns, exactly its own slot and its flush's are freed, a version call frees none; under NOTAG it is the first slot that carries it, the request's own exactly when no leaked slot lies before it; and a flush handed NOTAG that cannot be sent, taking a slot behind one that carries NOTAG, frees that one and leaves its own in use |
| ClientTheorems.SlotsConserved | src/client.c:24-58 | on every run, slots in use are those of requests and flushes in flight plus one per finished version call that had not been handed NOTAG itself |
| ClientTheorems.FreesOwnIff | src/client.c:52-58 | freeing by tag frees the request's own slot exactly when no earlier slot is live under the same tag |
| ClientNotag.NotagCompletesIff | src/client.c:168-252 | a slot that carries NOTAG is completed by a reply that does exactly when no slot before it carries NOTAG |
| ClientNotag.DeafIsUnanswered | src/client.c:259-369 | a call that waits for NOTAG behind a leaked slot is not answered on any run |
| ClientNotag.SecondVersionDeaf | src/client.c:458-527 | there is a run from power-up, through one answered version call, after which the second one is never answered |
| ClientNotag.WrappedRequestDeaf | src/client.c:24-38 | there is a run from power-up, through one answered version call, to the request that is handed 0xFFFF, which is never answered |
| ClientFids.StepFids | src/client.c:61-94 | every step of every thread keeps the fid table in agreement with the fids its calls took and gave back |
| ClientFids.FidTableExact | src/client.c:532-782 | on every run on which the fid counter does not come round to a fid in use, no fid has two entries, and the fids with one are those of auth, attach and walk calls in flight and those such calls established that no clunk or remove has returned for, if none was clunked or removed while its call was in flight |
| ClientFids.FidTableExactUnwrapped | src/client.c:64-80 | the same from power-up while fewer than 2^32 fids are handed out |
| ClientFids.NoWrapIsFresh | src/client.c:64-80 | a fid counter that does not wrap never hands out a fid that is in the table or in flight |
| ClientFids.ReturnSettlesFid | src/client.c:1075-1145 | after a clunk or remove, however it went, and after an auth, attach or walk that failed, no entry holds its fid; after one that succeeded exactly one does; no other fid gains or loses its entry |
| ClientFids.IndiscreetLosesEntry | src/client.c:1131-1139 | a clunk or remove that returns for the fid of a call in flight leaves that call without an entry |
| ClientReplies.FaultMeans | src/client.c:204-247 | which texts of an Rerror make which error, and that only an Rerror makes one |
| ClientReplies.ReplyIsReturned | src/client.c:168-252 | a frame with the tag of a waiting call completes that call alone, which then returns the frame, or the error its text spells, or that it was too large |
| ClientReplies.VersionSettlesSize | src/client.c:493-527 | a version call with an accepted answer leaves the least of the server's size, the client's and the buffer's; no other return touches the size |
| ClientReplies.CapIsGreatest | src/client.c:842-850 | the payload cap is the largest that fits the buffer and an agreed size above the head |
| ErrorTexts.RerrorReadBack | src/message.c:826-857 | size, tag and text of an Rerror read back |
| ErrorTexts.ErrnoCrosses | src/server.c:226-264 | the text for EACCES, EPERM or ENOENT makes the client report the same error, whatever the operation, and that for any other errno an I/O error |
| ErrorTexts.FsErrorArrives | src/server.c:226-235 | an errno of the filesystem on an open, create, write, remove or stat arrives, through dispatch, Rerror and the client's table, as that error if it is one of these three and as an I/O error otherwise |
| ConnectionKept.TurnKept | src/client.c:532-782 | every step of client, server and connection keeps the invariant of the connection |
| ConnectionKept.TakerAnswer | src/server.c:428-793 | a request for a fid gets at most one reply, and one that grants it only when the fid is bound |
| ConnectionKept.HeldFidsAreBound | src/client.c:532-782 | on every run, a fid established by auth, attach or walk and not yet being clunked or removed is bound at the server |
| ConnectionSizes.NegotiationRespectsBoth | src/client.c:518-524 | the agreed size is at most what the server holds, which is at most its buffer and the MTU, and at most the client's limit and buffer |
| ConnectionSizes.CapFitsIff | src/client.c:842-850 | the payload cap keeps a message within the agreed size exactly when that size exceeds the header, or equals the buffer |
| ConnectionSizes.TurnSized | src/client.c:905-914 | every step keeps the sizes of messages under way and of parked reads within the client's caps |
| ConnectionSizes.MessagesFitBoth | src/client.c:905-914 | on every run of turns whose frames are the ones TversionFits, TreadFits, TwriteFits and RversionEncodes show to be built, once a size above 23 is agreed, each Twrite, each Rread and the answer to each parked read fits both sizes and both buffers |
| ConnectionFrames.TattachFits | src/message.c:150-191 | the built Tattach is the request the connection speaks about |
| ConnectionFrames.TwalkFits | src/message.c:253-301 | the built Twalk is the request the connection speaks about |
| ConnectionFrames.TwriteFits | src/client.c:905-918 | a write of any length, cut to the cap, is built within the sizes, with the bytes cut off the front of the data |
| ConnectionFrames.TreadFits | src/client.c:842-855 | a read of any length, cut to the cap, is built within the sizes |
| ConnectionFrames.TversionFits | src/client.c:471-475 | the built Tversion offers the configured size |
| ConnectionFrames.RversionEncodes | src/server.c:379-425 | the built Rversion is accepted by the client exactly when the server accepted, and carries the server's size |
| ConnectionFrames.RwalkEncodes | src/message.c:303-342 | the built Rwalk tells the client how many names were walked |
| ConnectionFrames.RreadEncodes | src/message.c:756-782 | the built Rread is the reply the connection speaks about |
| Wire.PutU16 | src/message.c:34-38 | two little-endian bytes at the offset, nothing else changed |
| Wire.PutU32 | src/message.c:25-32 | four little-endian bytes at the offset, nothing else changed |
| Wire.PutU64 | src/message.c:12-23 | eight little-endian bytes at the offset, nothing else changed |
| Wire.PutHeader | src/proto.c:64-80 | size, type and tag at the start of the buffer; a buffer of fewer than seven bytes is refused untouched |
| Wire.PutString | src/proto.c:106-126 | a length and the bytes at the offset; what does not fit is refused and the buffer untouched |
| Wire.PutQid | src/proto.c:147-164 | type, version and path at the offset; what does not fit is refused and the buffer untouched |
| Wire.BuildTwalk | src/message.c:253-301 | refuses a tiny buffer, more than 16 names or a buffer too small for the frame and writes nothing; otherwise writes the frame and returns its size |
| Wire.BuildRwalk | src/message.c:303-342 | likewise for an Rwalk |
| Wire.BuildTattach | src/message.c:150-191 | likewise for a Tattach |
| Wire.BuildTwrite | src/message.c:577-614 | likewise for a Twrite |
| Wire.BuildTread | src/message.c:481-511 | likewise for a Tread |
| Wire.BuildVersion | src/message.c:40-106 | likewise for a Tversion or an Rversion |
| Wire.BuildRread | src/message.c:756-782 | turns a payload already in the buffer into an Rread, or changes nothing |
| Wire.HeaderReadBack | src/proto.c:30-62 | size, type, tag and body of a message read back |
| Wire.TwriteReadBack | src/message.c:577-614 | every field of a Twrite reads back |
| Wire.TauthReadBack | src/message.c:108-148 | afid and uname of a Tauth read back as the server parses them |
| Wire.TreadReadBack | src/message.c:481-511 | every field of a Tread reads back |
| Wire.VersionReadBack | src/message.c:40-106 | size and text of a Tversion or an Rversion read back |
| Wire.TattachReadBack | src/message.c:150-191 | every field of a Tattach reads back at its place; AnameTakenIff says when the server looks there |
| Wire.RreadReadBack | src/message.c:756-782 | count and data of an Rread read back |
| Wire.QidReadBack | src/proto.c:128-164 | a written qid parses to itself |
| Wire.RwalkReadBack | src/message.c:303-342 | count and every qid of an Rwalk read back |
| WalkPath.SplitPath | src/client.c:700-720 | the names are the first sixteen non-empty components, in order |
| WalkPath.TwalkReadBack | src/message.c:253-301 | fids, count and names of a Twalk read back as the server parses it |
| WalkPath.PathReachesFilesystem | src/client.c:700-720 | through splitter, builder and parser, any filesystem is handed the first sixteen components in order, up to the first not found |
| WalkPath.WholePathWalked | src/client.c:700-720 | a walk that finds everything walks exactly the path if and only if it has at most sixteen components |
| Framing.UartFramer.OnByte | src/transport_uart.c:39-82 | one byte takes the framer's state to the next |
| Framing.UartFramer.OnReady | src/transport_uart.c:29-83 | one interrupt takes in every byte the FIFO holds |
| Framing.L2capFramer.Absorb | src/transport_l2cap_client.c:321-382 | bytes up to the end of the size field or the body, with the checks on an announced size |
| Framing.L2capFramer.Recv | src/transport_l2cap_client.c:306-398 | one chunk takes the framer's state to the next |
| Framing.UartRun | src/transport_uart.c:39-82 | on well-formed frames the UART framer stands, after any number of bytes, at that position of the stream |
| Framing.CutsTracked | src/transport_l2cap_client.c:321-382 | on well-formed frames both framers stand, after any chunks, at that position of the stream |
| Framing.FramersAgree | src/transport_l2cap_client.c:321-382 | for every concatenation of frames that fit and every way of cutting it, both deliver exactly the frames in order and end empty |
| FramingPieces.UartAccounts | src/transport_uart.c:39-82 | on any bytes, damaged or not, every byte received is in a frame delivered whole, of its announced size and within the buffer, or in seven bytes dropped for a bad header, or in a buffer's length and one dropped for a frame that does not fit, or in the buffer; and all this in order |
| FramingPieces.L2capAccounts | src/transport_l2cap_client.c:306-398 | the same for any packets: frames of their announced size, a bad size dropped with the rest of its packet, and the buffer |
| Normalize.Back | src/namespace/namespace.c:69-75 | taking the last name off the output, by scanning back for a slash |
| Normalize.PathNormalize | src/namespace/namespace.c:43-101 | the buffer ends up with the result of the character machine and a NUL; an empty buffer is refused; for an absolute path in a buffer of one byte, and only then, the NUL belongs behind the buffer |
| Normalize.NormalReduces | src/namespace/namespace.c:43-101 | a clean absolute path that fits becomes its components reduced on a stack |
| Normalize.NormalIsNormal | src/namespace/namespace.c:43-101 | the result is no longer, has no ".", ".." or empty component, and is its own normal form |
| Normalize.NormalAbsolute | src/namespace/namespace.c:52-57 | an absolute path stays absolute, clean or not |
| Normalize.CleanIsExact | src/namespace/namespace.c:59-88 | a path is clean exactly when, at each of its component boundaries, one more name normalises as it should |
| Normalize.UncleanPaths | src/namespace/namespace.c:66-87 | three paths whose normal form is not the reduced one |
| NormalizeExact.NormalKeeps | src/namespace/namespace.c:43-101 | every absolute path that fits, clean or not, becomes the names kept of it, component by component |
| NormalizeExact.RightIff | src/namespace/namespace.c:43-101 | a path comes out right if and only if the names kept of it are those of its reduced components, or one empty name is kept where these are none |
| NormalizeExact.WithoutUpsIff | src/namespace/namespace.c:66-87 | a path in which no component ends in ".." comes out right if and only if no component but "." ends in a dot |
| Namespace.Pass | src/namespace/namespace.c:731-741 | one inner loop of the sort moves the last-ranked entry to the end and keeps the order of equals |
| Namespace.Sort | src/namespace/namespace.c:728-742 | the entries end up ordered by path length and priority, as a stable rearrangement |
| Namespace.OrderedUnique | src/namespace/namespace.c:728-742 | an ordered sequence is determined by its entries of each rank |
| MountOrder.BucketHoldsUnion | src/namespace/namespace.c:439-470 | after every run a bucket holds each of its paths' unions in search order |
| MountOrder.RunKeeps | src/namespace/namespace.c:439-470 | after every run priorities rise along each bucket and each entry is in its own path's bucket |
| MountOrder.SortedMatches | src/namespace/namespace.c:706-742 | a stable sort of all matches can only give each prefix's entries, longest prefix first |
| MountOrder.WalkListsUnions | src/namespace/namespace.c:689-745 | after every run of mounts and unmounts a walk lists every prefix's union, longest prefix first: newest BEFORE first, AFTER in mount order |
| MountOrder.MatchCount | src/namespace/namespace.c:706-726 | a walk matches exactly as many entries as the unions of the prefixes hold |
| Mounts.Table.constructor | src/namespace/namespace.c:179-191 | a new namespace has no mounts |
| Mounts.Table.Hash | src/namespace/namespace.c:131-141 | the 32-bit hash of a path, reduced to the table size |
| Mounts.Table.MountAt | src/namespace/namespace.c:433-470 | a mount at the normalised path, in front, behind or instead of the bucket |
| Mounts.Table.UnmountAt | src/namespace/namespace.c:559-602 | the first mount at the normalised path goes; false exactly when the union there is empty |
| Mounts.Table.Walk | src/namespace/namespace.c:689-745 | the matches, cut to the caller's array and sorted; if they all fit, exactly the unions of the prefixes |
| UnionFs.UnionTable.Mount | src/union_fs.c:1229-1277 | full, taken, without get_root, without a root or mounted: each outcome exactly in its case and in this order; mount paths stay distinct |
| UnionFs.UnionTable.FindMountPoint | src/union_fs.c:35-74 | none exactly when no mount handles the path; otherwise one that does, with the longest path |
| UnionFs.PrefixIsComponentwise | src/namespace/namespace.c:106-126 | on normal paths a boundary prefix is a prefix of the components, and the other way round, for both searches |
| UnionFs.RelativeRebuilds | src/union_fs.c:90-108 | the mount's components and the relative path's make up the path's, the relative path is normal, and joining the texts gives the path |
| UnionFs.MountAllSame | src/namespace/namespace.c:439-470 | mounting each path once, before or after, makes a namespace with the same mounts |
| UnionFs.SameMountChosen | src/union_fs.c:35-74 | with the same mounts at distinct paths, find_mount_point and the first result of ns_walk are the same mount |
| UnionFs.LongestIsDeepest | src/union_fs.c:35-74 | every other mount that handles the path has a prefix of the chosen one's components |
| Ramfs.Directory.AddChild | src/ramfs.c:38-46 | the chain of sibling links runs through the new child and then through the old ones; a child that is on the chain already closes it into a ring |
| Ramfs.Directory.PutRecord | src/ramfs.c:130-225 | one stat record at the offset, nothing else changed; RecordReadBack says what a reader finds in it |
| Ramfs.Directory.Read | src/ramfs.c:99-230 | the directory branch of ramfs_read, following the sibling links, returns what the reference emits |
| Ramfs.PageIsNextRecords | src/ramfs.c:99-230 | a read that resumes behind k records returns the next ones, whole and in order, as many as fit |
| Ramfs.PagedListing | src/ramfs.c:99-230 | successive reads yield every record exactly once, whole and in list order, for all counts that hold any one record; ListingReadBack takes them apart again |
| Listing.RecordReadBack | src/ramfs.c:121-225 | a stat record reads back: its size field is its length less two, and qid, mode, length and the four strings are the child's, the mode with the directory bit for every directory |
| Listing.ListingReadBack | src/ramfs.c:99-230 | a directory read page by page is taken apart, by the size fields, into its children, each once and in list order |
| Ramfs.NewestListedFirst | src/ramfs.c:38-46 | after a child is added a listing shows it first and then what it showed before |

## Left out

- Transport send failures: a reply that was built counts as sent; on the client a failed send ends the call.
- Completions called from inside the dispatch of the same server, and completions with a slot number beyond the table (refused with EINVAL before the gate; here they are stale).
- Whether memory can be read behind the end of a frame or of a text constant: the model gives every such read an arbitrary value. Tauth, and Tattach with a uname of more than ten bytes that the frame does not hold, read behind a constant.
- A frame dispatched after cleanup has passed its gate, and a cleanup that goes on while a frame is being dispatched: `ServerRuns` excludes both (`Enabled` of DispatchEnter and CleanFinish), because cleanup frees the buffers that a dispatch uses and nothing in the code keeps them apart.
- A server without fs_ops, get_root or walk, and the in-process use of the server without a transport.
- The wrap-around of the completion counter and of `completions_active`.
- Logging, `last_ename`, statistics, and the text of client error messages beyond the error code.
- The builders and parsers not listed above, the stat parser of the client, and the contents of an Rstat.
- Copy-on-write namespaces (`ns_fork`, `ns_make_writable`), `ns_clear`, the VFS mount behind a namespace entry, and priorities beyond the range of int.
- The rest of the union filesystem: synthetic directories, merged listings and node owners.
- Sockets, Bluetooth, CoAP, GATT, UART driver calls, thread creation and work queues.
- `src/session_pool*.c`, `src/sysfs.c`, `src/passthrough_fs.c`, `src/dfu.c`, `src/fid.c`, `src/tag.c`, `src/namespace/srv.c`, `src/namespace/fs_9p.c`, `src/namespace/ns_file_ops.c`: delegation, foreign calls or short tables.
- Normalize.CleanIsExact: is exact for a path together with a further name at each of its boundaries, because a later ".." may remove the damage of an unclean path; RightIff is exact for a single path. NULL pointers are not modelled.
- ConnectionKept.HeldFidsAreBound: needs version calls to be over before other requests begin, because a later Tversion resets the server's table, and the tag counter below NOTAG, because a reply still under way from a tag's earlier use would be taken for the later request's.
- ConnectionSizes.MessagesFitBoth: needs an MTU that does not change and a filesystem that returns no more than it was asked for.
- ServerTheorems.RreadsFitMsize: is about ordinary fids; an auth fid's challenge is capped by the request alone.
- Mounts.Table.Walk: speaks about the order only when all matches fit the caller's array, because the code cuts them before sorting.
- Client.Tags.Recv: the receive callback under the client's lock, without the broadcast that wakes the waiters.
