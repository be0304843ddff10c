# Verified cores of Hyperboria

Hyperboria is a mesh network daemon in the cjdns family.  This project models five parts of it whose
correctness is not visible from any one function, and proves what the rest of the program relies on.

* **CryptoAuth sessions** (`CryptoAuth`, `Session`, `TwoParty`, `CryptoAuthProperties`,
  `CrossingHellos`, `Conversation`).  Keys are symbolic: a shared secret names its two keys and its password, and a box
  opens only under the secret and the 24-byte nonce it was sealed with.  The network may lose, repeat,
  reorder, reflect and re-head every box ever sealed, and may make up any box that is not under two
  honest keys.  The results about runs are about every run of two sessions in which no packet reaches a
  session that is not yet established and has counted past 0xfffffffc; the next section says what that
  bound is for.
* **The allocator tree** (`Links`, `Ownership`, `Pivot`, `PivotFrames`, `AllocatorOps`, `Sums`, `Arena`,
  `ArenaInvariant`, `ArenaProperties`, `ArenaEffects` on values; `SiblingLists`, `AllocatorTree` on cells linked by
  pointers).  The specification of a free is reachability over natural and adopted parents; the program's
  level-by-level walk along sibling lists refines it.
* **Stream framing** (`Framing`).  The incremental receiver against a one-shot decoder.
* **The replay window** (`Bits`, `ReplayProtector`).  A 64-bit bitfield against a set of nonces.
* **Smaller refinements** (`Address`, `Dict`, `BufferAllocator`).

`Prelude` holds the words and options all of them use.  `dafny verify dfyconfig.toml` checks the whole
project.  Where a part of the program changes things in place there is a class or a method in that form,
and its contract ties the new state to a function whose properties are proved beside it.  Parameters stand
for what the program gets from outside: the clock, random draws, the memory provider's answer, whether a
callback asks for more time, and (`undefined`) the value of a shift C leaves undefined.

## What is not as promised

* `isAncestorOf` does not advance the list of adopted parents, so it can loop for ever.  The tree operations
  are modelled with the loop moving on; `AllocatorOps.AsWritten` is the loop as it stands.  An answer it
  gives is right, `AllocatorOps.ReturnsExactly` says for every pair when it answers yes and when no, and
  `AllocatorOps.HangsOnAncestor` is a tree of four where it hangs on a true ancestor.
* Handshake packets do not count as activity.  Two ends whose hellos cross become established if and only
  if the key packet, the first traffic packet and the reply are each sent before the sender has timed out
  (`CrossingHellos.CrossingHellosComplete`); an initiator that waited too long accepts the key packet and
  throws it away with its next send, which is a new hello (`CrossingHellos.LateFirst`,
  `CrossingHellos.LateKeyWitness`).
* A traffic packet moves the replay window of a session that is not established yet even when it does not
  open: afterwards a packet of the peer completes the handshake if and only if its counter is higher than
  that (`Conversation.FinalStepExactly`, `Conversation.StrayMovesTheBase`).
* The 32-bit message counter can wrap while receiving: `CryptoAuthProperties.ReceiveSafeExactly` gives the
  exact bound, `CryptoAuthProperties.RepeatKeyAbortsAtLastCounter` the packet that fails an assertion, and
  `CryptoAuthProperties.NoRoomIsReachable` a run that gets past the bound.
* The loss counter of the replay window is exact if and only if no losing shift reaches 2^31
  (`ReplayProtector.CheckCountsLoss`).
* A job registered while its allocator is already being freed waits for another free: it is called, once,
  if and only if some later free takes that allocator along (`ArenaProperties.LateJobCalledExactly`), and
  keeps the memory until then.  Cancelling the last job a freed part waits for strands its memory until a
  free takes it or a job is registered in it (`ArenaProperties.CancelStrands`).  A short run from a new root
  leads to both (`ArenaProperties.LateAndStrandedReachable`).
* The signed test of the space limit lets a block of 2^63 bytes or more through, and the accounts are then
  wrong: `ArenaInvariant.AllocationAccountsExactly`.
* `String_compare` cuts the difference of two lengths to 32 bits (`Dict.ComparesExactly`).  A put into a
  sorted dictionary is right if and only if the walk meets no key whose length misleads it
  (`Dict.PutsExactly`); the empty key put beside one of 2^32 bytes overwrites the value of the other
  (`Dict.LongKeyWitness`).  `Dict_size` is right below 2^31 entries.
* `getRealSize` and `allocatorMalloc` can wrap near 2^64 (`Arena.RealSizeHoldsExactly`,
  `BufferAllocator.FitsExactly`).
* The comment on `Dict_size` promises -1 for a null dictionary and the code returns 0; the sign
  `String_compare` gives for a null string is the reverse of its comment.  Null arguments are not modelled.

## Model

| member | source | states |
|---|---|---|
| `CryptoAuthProperties.TwoPartyAgreement` | crypto/CryptoAuth.c:476-914 | in every run whose counters have room, what an end delivers from a traffic packet is the body its peer was given to send, under the same counter and pair of temp keys, in the opposite role |
| `CryptoAuthProperties.HandshakeBodyWasSent` | crypto/CryptoAuth.c:558-831 | what a handshake packet delivers in such a run one of the two ends was given to send |
| `CryptoAuthProperties.NoPacketAcceptedTwice` | crypto/CryptoAuth.c:834-914 | no end accepts one traffic packet twice in such a run, across resets, new handshakes and the window restart of the last handshake step |
| `CryptoAuthProperties.NoNonceReused` | crypto/CryptoAuth.c:476-526 | no two traffic packets of such a run share secret and 24-byte nonce |
| `CryptoAuthProperties.SessionInvariant` | crypto/CryptoAuth.c:423-449 | after every such run a session knows the peer's temp key exactly from state 2 on, has the role of its state, the right secret past state 4, and a counter of 6 or more once established |
| `CryptoAuthProperties.ReceiveNeverAborts` | crypto/CryptoAuth.c:558-831 | no assertion of the receiving code fails in any run whose counter has room |
| `CryptoAuthProperties.SendAbortsExactly` | crypto/CryptoAuth.c:476-526 | the sending code trips exactly over an empty body once the handshake is through |
| `CryptoAuthProperties.ReceiveSafeExactly` | crypto/CryptoAuth.c:740-831 | a session is safe against every proper packet if and only if it is established or its counter is at most 0xfffffffc |
| `CryptoAuthProperties.AbortNeedsLastCounter` | crypto/CryptoAuth.c:740-757 | a receiving assertion can fail only for a key packet at counter 0xffffffff |
| `CryptoAuthProperties.RepeatKeyAbortsAtLastCounter` | crypto/CryptoAuth.c:740-757 | and there it does fail |
| `CryptoAuthProperties.CounterClimbs` | crypto/CryptoAuth.c:740-757 | copies of one key packet take the counter of an initiator from 5 to any value up to 0xfffffffd |
| `CryptoAuthProperties.NoRoomIsReachable` | crypto/CryptoAuth.c:740-757 | so a run from two new sessions ends where the counter has no room |
| `CrossingHellos.LowerKeyStaysInitiator` | crypto/CryptoAuth.c:712-799 | when each end receives the other's hello, both accept and exactly the one with the lower permanent key stays initiator, unchanged |
| `CrossingHellos.CrossingHellosComplete` | crypto/CryptoAuth.c:319-526 | from two new ends that each send a hello, through the key packet and one traffic packet each way: both are established, in opposite roles and with one secret, if and only if none of the three later senders has timed out when it sends |
| `CrossingHellos.LateKeyWitness` | crypto/CryptoAuth.c:319-340 | a run in which the key packet comes too late: it is accepted, and the next send of the initiator is a hello |
| `CrossingHellos.LateFirst` | crypto/CryptoAuth.c:319-340 | so for every initiator that has timed out after the key packet |
| `CrossingHellos.LateKey` | crypto/CryptoAuth.c:319-340 | a yielding end that timed out before its key packet sends a hello the other ignores |
| `CrossingHellos.HelloSent` | crypto/CryptoAuth.c:342-473 | a send from the initial state is a hello the peer can open, and leaves the sender waiting |
| `CrossingHellos.HellosCross` | crypto/CryptoAuth.c:342-799 | the two hellos sent and delivered leave the lower key waiting and the higher yielding |
| `CrossingHellos.KeyArrives` | crypto/CryptoAuth.c:342-757 | the key packet in time gives both ends the same temp keys and does not move the clock of its receiver |
| `CrossingHellos.FirstArrives` | crypto/CryptoAuth.c:476-886 | the first traffic packet in time establishes its receiver |
| `CrossingHellos.ReplyArrives` | crypto/CryptoAuth.c:476-886 | and the reply in time its own |
| `CrossingHellos.CrossingClock` | crypto/CryptoAuth.c:558-831 | hearing the hellos moves neither clock |
| `CrossingHellos.HelloReceived` | crypto/CryptoAuth.c:760-799 | what a waiting session becomes on a crossing hello, by the order of the permanent keys |
| `CrossingHellos.KeySent` | crypto/CryptoAuth.c:342-473 | a session that yielded answers with a key packet for the temp key it heard |
| `CrossingHellos.KeyReceived` | crypto/CryptoAuth.c:719-757 | the waiting initiator takes that key packet and the temp key in it |
| `CrossingHellos.TrafficCompletes` | crypto/CryptoAuth.c:853-886 | the first traffic packet under the common temp keys establishes the session |
| `Conversation.TrafficAcceptedExactly` | crypto/CryptoAuth.c:894-904 | an established session delivers a traffic packet, whole, if and only if it opens and its counter is not covered; then the clock is set and the counter covered, and nothing else changes |
| `Conversation.WhatIsSaidArrives` | crypto/CryptoAuth.c:476-914 | two ends that have completed a handshake deliver everything either says and that is not lost, in order and unchanged, as long as each speaks before it times out |
| `Conversation.TurnArrives` | crypto/CryptoAuth.c:476-914 | one turn of that |
| `Conversation.HandshakeCompletes` | crypto/CryptoAuth.c:319-914 | a hello from an end that starts over, to a peer in any state that is not itself waiting, leads to a session if and only if none of the three later senders has timed out |
| `Conversation.LossyHandshakeCompletes` | crypto/CryptoAuth.c:342-886 | however many hellos are repeated and key packets lost before one gets through, the handshake still completes |
| `Conversation.RetriesKeep` | crypto/CryptoAuth.c:342-799 | repeated hellos and lost key packets change neither end's temp keys |
| `Conversation.HelloTakenExactly` | crypto/CryptoAuth.c:558-799 | in any state a hello with a new temp key is taken if and only if the user table has its password under its challenge; the old session is then forgotten, and a refusal, with its reason, changes nothing |
| `Conversation.KnownHelloChangesNothing` | crypto/CryptoAuth.c:686-799 | a hello with the temp key in use is answered only when repeated and before traffic, and changes nothing |
| `Conversation.KeyTakenExactly` | crypto/CryptoAuth.c:686-757 | an initiator not yet established takes a first key packet with a new temp key and a repeated one with the known temp key, and no other, and counts on |
| `Conversation.StrayKeyRefused` | crypto/CryptoAuth.c:623-632 | anyone else refuses key packets |
| `Conversation.ForeignIsRefused` | crypto/CryptoAuth.c:558-579 | packets that are too short, carry another key or come too late for a key packet change nothing |
| `Conversation.FinalStepExactly` | crypto/CryptoAuth.c:853-889 | a traffic packet establishes the session if and only if it opens and is not below the base; every packet tried moves the base past its counter |
| `Conversation.StrayMovesTheBase` | crypto/CryptoAuth.c:871-875 | after one that does not open, only a higher counter can establish the session |
| `Conversation.NoTrafficBeforeKeys` | crypto/CryptoAuth.c:854-859 | before the key packet no traffic is taken |
| `Conversation.TimesOutExactly` | crypto/CryptoAuth.c:319-340 | a session times out at the larger of the two limits once established and at the setup limit before, and never while it waits for an answer to its hello |
| `Conversation.SilenceRestarts` | crypto/CryptoAuth.c:319-526 | after a delivery the next send goes on with the counter if it is within that time, and is a hello if it is later |
| `Conversation.ElapsedIsDifference` | crypto/CryptoAuth.c:319-340 | the silence is the 64-bit difference of the clocks |
| `Conversation.LastCounterRestarts` | crypto/CryptoAuth.c:486-489 | a session out of counters sends a hello |
| `Conversation.ResetIsNew` | crypto/CryptoAuth.c:305-317 | a reset leaves what a new session has, but for credentials and clock |
| `Conversation.SetAuthTakes` | crypto/CryptoAuth.c:1069-1102 | the session has the password it is given, and starts over if and only if it is another one |
| `Conversation.ClearAuthTakes` | crypto/CryptoAuth.c:1069-1102 | without credentials no password is used |
| `Conversation.NewPasswordOpens` | crypto/CryptoAuth.c:342-470 | the next hello is taken by a listening peer if and only if that has the password under the challenge |
| `TwoParty.RunKeepsInv` | crypto/CryptoAuth.c:305-914 | the invariant behind all of these holds after every such run of sends, receives, resets, timeouts and new credentials |
| `TwoParty.SendKeepsInv` | crypto/CryptoAuth.c:342-526 | a send keeps it, for any drawn temp key that is fresh |
| `TwoParty.ReceiveKeepsInv` | crypto/CryptoAuth.c:834-914 | while the counter has room, a receive of anything the network can produce keeps it and does not abort |
| `TwoParty.NotAcceptedBefore` | crypto/CryptoAuth.c:534-549 | a packet that is accepted is not among those accepted before |
| `TwoParty.OpenedTraffic` | crypto/CryptoAuth.c:242-254 | a box that opens as traffic was sealed as traffic by the peer, under these keys and this counter |
| `TwoParty.OpenedKey` | crypto/CryptoAuth.c:604-665 | a box that opens as a key packet carries a temp key the peer made as responder |
| `Session.Session.constructor` | crypto/CryptoAuth.c:1040-1067 | a new session is in the initial state |
| `Session.Session.Reset` | crypto/CryptoAuth.c:305-317 | clears exactly the handshake fields |
| `Session.Session.ResetIfTimeout` | crypto/CryptoAuth.c:319-340 | resets exactly when a handshake or an established session has been silent too long |
| `Session.Session.SetAuth` | crypto/CryptoAuth.c:1069-1102 | new credentials reset the session, the same ones leave it alone |
| `Session.Session.EncryptHandshake` | crypto/CryptoAuth.c:342-473 | the in-place code computes the handshake packet and state of the session function |
| `Session.Session.Encrypt` | crypto/CryptoAuth.c:476-526 | the in-place code computes the packet and state of the session function, or stops where it does |
| `Session.Session.DecryptMessage` | crypto/CryptoAuth.c:534-549 | opens under the counter nonce and then asks the replay window |
| `Session.Session.DecryptHandshake` | crypto/CryptoAuth.c:558-831 | the in-place code gives the verdict and state of the session function in every branch |
| `Session.Session.Decrypt` | crypto/CryptoAuth.c:834-914 | likewise for any packet |
| `ReplayProtector.CheckRefinesSet` | crypto/ReplayProtector.h:66-104 | a nonce is accepted exactly when it is not below the base and was never accepted, and the new window records the set with it added |
| `ReplayProtector.RunIsSetRun` | crypto/ReplayProtector.h:66-104 | over any run the verdicts and the base are those of a machine that keeps the base and the set of accepted nonces, with neither bits nor shifts |
| `ReplayProtector.CheckBase` | crypto/ReplayProtector.h:75-96 | where a nonce takes the base: 32 at a time while no gap is passed, else to 47 below the nonce |
| `ReplayProtector.LosingReach` | crypto/ReplayProtector.h:90-95 | after a slide that gives packets up, an unseen nonce is accepted if and only if it is at most 47 behind |
| `ReplayProtector.HappyReach` | crypto/ReplayProtector.h:86-88 | over k halves without a gap the base moves by 32 k and then stops, or gives packets up at the first gap |
| `ReplayProtector.CheckCounts` | crypto/ReplayProtector.h:68-71 | what is refused is counted once, below the base as out of range and otherwise as a duplicate |
| `ReplayProtector.RunCountsAll` | crypto/ReplayProtector.h:66-104 | over any run accepted, duplicate and out-of-range add up to the arrivals |
| `ReplayProtector.WithinReachAccepted` | crypto/ReplayProtector.h:66-104 | every unseen nonce from the start up that is at most 32 below the highest accepted one is accepted |
| `ReplayProtector.RunRefinesSet` | crypto/ReplayProtector.h:66-104 | over any run no nonce is accepted twice and none within reach is refused |
| `ReplayProtector.CheckCountsLoss` | crypto/ReplayProtector.h:45-96 | the loss counter stays exact if and only if no losing shift reaches 2^31 |
| `ReplayProtector.RunCountsLoss` | crypto/ReplayProtector.h:73-96 | over a run of such shifts it equals the number of gaps the base has passed |
| `ReplayProtector.AdvanceLosesCount` | crypto/ReplayProtector.h:45-54 | past that bound some outcome of the undefined shift makes the counter wrong |
| `ReplayProtector.ReplayProtector.CheckNonce` | crypto/ReplayProtector.h:66-104 | the loop computes the window function |
| `ReplayProtector.ReplayProtector.DoShift` | crypto/ReplayProtector.h:77-84 | one shift of the loop |
| `Framing.CutsDoNotMatter` | interface/FramingIface.c:75-158 | however a byte stream is cut, the receiver delivers what the one-shot decoder finds, and stops for good at the same oversize frame |
| `Framing.FramedMessagesArrive` | interface/FramingIface.c:75-166 | messages of legal size arrive complete and in order, whatever the cuts |
| `Framing.DecodeUndoesFrames` | interface/FramingIface.c:160-166 | decoding the frames of any messages gives those before the first oversize one |
| `Framing.FirstByteDecides` | interface/FramingIface.c:118-118 | of two headers the one with the smaller byte where they first differ is the smaller length |
| `Framing.HeaderOfLength` | interface/FramingIface.c:164-164 | each length has one header, and reading it back gives the length |
| `Framing.DecodeResumes` | interface/FramingIface.c:85-105 | decoding a stream in two goes is decoding it in one |
| `Framing.FramingIface.ReceiveMessage` | interface/FramingIface.c:75-158 | one call on the header, part list and byte count resumes the decoder, and terminates |
| `Framing.FramingIface.ReceiveFrames` | interface/FramingIface.c:107-157 | its loop over whole frames |
| `Framing.FramingIface.FillHeader` | interface/FramingIface.c:108-115 | its loop over header bytes |
| `Framing.FramingIface.MergeMessage` | interface/FramingIface.c:50-73 | joins the parts in stream order |
| `Framing.ReceiveAll` | interface/FramingIface.c:75-158 | a receiver fed chunk by chunk delivers the decoded messages |
| `Pivot.FreeMarksUnreachable` | memory/Allocator.c:350-398 | freeing an allocator nobody adopted newly marks exactly the live allocators that no chain of links from the root reaches once its natural link is cut |
| `Pivot.AdoptedOnlyPivots` | memory/Allocator.c:358-367 | an adopted allocator moves to its first adopter and nothing is freed |
| `Pivot.PivotedGoesFirst` | memory/Allocator.c:302-322 | and comes first among the children of its new parent; every other list keeps its order |
| `Pivot.WalkFinishes` | memory/Allocator.c:389-398 | the walk gives up only when a chain of 10000 allocators starts at x, each a natural or an adopted child of the one before; siblings that adopt one another make such a chain in a shallow tree |
| `Pivot.AdopterIsLive` | memory/Allocator.c:362-362 | the assertion before a pivot holds |
| `Pivot.AdopteeIsLive` | memory/Allocator.c:370-370 | the assertion before an adoption is dropped holds |
| `Pivot.FreedPartHangs` | memory/Allocator.c:350-387 | the freed part is one subtree: x keeps its parent, earlier freed parts stay where they were |
| `Pivot.FreeKeepsLinks` | memory/Allocator.c:350-387 | a free makes no link, and what stays alive keeps exactly the links it had among itself |
| `Pivot.VisitKeepsStructure` | memory/Allocator.c:358-376 | a visit keeps sibling lists, symmetric adoption lists and freeing allocators without adoptions |
| `PivotFrames.VisitAllKeepsEnd` | memory/Allocator.c:378-384 | the siblings the walk has not reached stay the end of the list it goes along |
| `PivotFrames.KidUpperFreeing` | memory/Allocator.c:378-384 | visits under earlier siblings leave the levels under a later one as they were |
| `AllocatorOps.IsAncestorOf` | memory/Allocator.c:675-696 | with the loop moving on, the answer is reachability over natural and adopted parents |
| `AllocatorOps.AnswersAreRight` | memory/Allocator.c:675-696 | as written, an answer that comes back is reachability |
| `AllocatorOps.ReturnsExactly` | memory/Allocator.c:675-696 | as written, for every pair: it answers yes exactly when a is on the line of natural parents of c, or, something on that line being adopted, when it answers yes for the first adopter of the one nearest the root; it answers no exactly when that fails and nothing on the line is adopted |
| `AllocatorOps.HangsOnAncestor` | memory/Allocator.c:687-693 | a tree of four where the call for a true ancestor does not come back |
| `AllocatorOps.AdoptionKeepsWellFormed` | memory/Allocator.c:724-761 | an adoption the ancestor check lets through keeps the link graph acyclic |
| `AllocatorOps.ChildKeepsWellFormed` | memory/Allocator.c:630-657 | a new child keeps the graph well formed |
| `AllocatorOps.UnadoptKeepsWellFormed` | memory/Allocator.c:339-347 | ending an adoption keeps the graph well formed |
| `AllocatorOps.PruneKeepsWellFormed` | memory/Allocator.c:453-477 | releasing a freed part keeps the graph well formed |
| `Ownership.MoveKeepsStructure` | memory/Allocator.c:277-322 | leaving one list for another keeps every list and parent pointer consistent |
| `Links.LinkKeepsRanked` | memory/Allocator.c:733-737 | a link whose child does not reach its parent closes no cycle |
| `Arena.RealSizeHoldsExactly` | memory/Allocator.c:124-132 | a block holds its request and header if and only if the request is at most 2^64 - 40 |
| `ArenaEffects.RealSizeIsLeast` | memory/Allocator.c:124-132 | up to there the real size is the least multiple of eight with room for request and header |
| `ArenaEffects.NewArenaExactly` | memory/Allocator.c:803-848 | when a new root is made, and that it has exactly the room of its limit beside its own block |
| `ArenaInvariant.ApplyKeepsInv` | memory/Allocator.c:155-801 | every operation keeps the whole invariant: graph, accounting, each allocator's own block last, adoption records, job placement, call counts |
| `ArenaInvariant.AllocationAccountsExactly` | memory/Allocator.c:155-186 | an allocation the limit lets through keeps the accounts right if and only if its real size is below 2^63 |
| `ArenaInvariant.OwnStaysLast` | memory/Allocator.c:545-617 | replacing or taking out a block other than the last leaves the block an allocator lives in last |
| `ArenaInvariant.RunKeepsInv` | memory/Allocator.c:155-801 | so does every run |
| `ArenaInvariant.ReleaseAccounts` | memory/Allocator.c:250-274 | releasing a part gives back exactly what was allocated in it |
| `ArenaInvariant.MarshalPlaces` | memory/Allocator.c:405-429 | after a free every pending job is on the list of the top of its freed part |
| `ArenaInvariant.RunCallsOnce` | memory/Allocator.c:431-451 | running a list calls no job that was called before |
| `ArenaInvariant.OwnerIsTop` | memory/Allocator.c:769-776 | a late job goes to the top of the freed part |
| `ArenaInvariant.ReleaseKeepsInv` | memory/Allocator.c:453-477 | releasing a part with an empty list leaves every other job and its allocator in place |
| `ArenaProperties.EveryRun` | memory/Allocator.c:155-848 | after any run from a new root: no ownership cycle, every byte accounted for within the limit, the block an allocator lives in is last of its list and only there, every pending job's allocator there, no job called twice |
| `ArenaProperties.NothingUnaccounted` | memory/Allocator.c:501-509 | the check for unaccounted memory never fires |
| `ArenaProperties.BytesAllocatedSums` | memory/Allocator.c:72-79 | the recursive count is the sum over everything under an allocator |
| `ArenaProperties.FreeRunsEveryJob` | memory/Allocator.c:405-451 | a free calls each callback registered in the freed part exactly once over its life and leaves exactly the asynchronous ones pending; other jobs are untouched |
| `ArenaProperties.FreeReleasesExactly` | memory/Allocator.c:494-521 | the freed part is gone, and its bytes back, exactly when no job registered in it is pending |
| `ArenaProperties.JobCalledExactly` | memory/Allocator.c:405-521 | over any run that neither cancels nor completes it, a job with a callback is called exactly once if some free or disowning in the run takes its allocator into the freed part, and otherwise not at all, and then its allocator stays |
| `ArenaProperties.LateJobCalledExactly` | memory/Allocator.c:763-801 | so for a job registered on an allocator already being freed: only a later free that takes that allocator calls it, and until then it keeps the memory |
| `ArenaProperties.FreedPartIsUnreachable` | memory/Allocator.c:350-398 | what a free takes, of the live allocators: those no chain of links from the root reaches once the natural link of x is cut, and none if x is adopted |
| `ArenaProperties.GoesExactly` | memory/Allocator.c:479-521 | one operation releases a freed part that lingers if and only if it completes its last job or frees a part around it in which no job stays pending |
| `ArenaProperties.CancelStrands` | memory/Allocator.c:659-672 | after the last awaited job is cancelled, a run releases the part only if a free in it takes the part or a job is registered in it |
| `ArenaProperties.Stranded` | memory/Allocator.c:453-492 | so for every freed part left with no job |
| `ArenaProperties.LateAndStrandedReachable` | memory/Allocator.c:494-521 | a run of three operations from a new root ends where a job can be registered late and where a cancel strands a child |
| `ArenaProperties.ReallocUndoesMalloc` | memory/Allocator.c:545-617 | giving back by its address the block just allocated restores the state |
| `ArenaEffects.ResizeExactly` | memory/Allocator.c:545-617 | giving a block back takes exactly it from the list and the accounts; resizing is that and a new block in its place, refused only by the limit or the provider |
| `ArenaEffects.ForeignBlock` | memory/Allocator.c:560-572 | a block that is not on the list cannot be resized |
| `ArenaEffects.ChildMade` | memory/Allocator.c:630-657 | when a child is made, and that it hangs first under its parent with its own block and nothing else changed |
| `ArenaEffects.FreeUndoesChild` | memory/Allocator.c:494-657 | freeing a new child gives back the arena as it was |
| `ArenaEffects.AdoptExactly` | memory/Allocator.c:724-761 | an adoption between live allocators adds exactly the link, first in both lists, and charges each side for it, unless the child is already above the parent; when it ends the program |
| `ArenaEffects.AdoptionSaves` | memory/Allocator.c:358-367 | freeing an allocator just adopted frees nothing and moves it under its adopter |
| `ArenaEffects.DisownUndoesAdopt` | memory/Allocator.c:698-761 | disowning undoes an adoption by an allocator that is not the natural parent |
| `ArenaEffects.DisownExactly` | memory/Allocator.c:698-722 | disowning frees a natural child, ends exactly one adoption of an adopted one, and ends the program for any other |
| `ArenaEffects.CancelUndoesRegister` | memory/Allocator.c:659-801 | cancelling a job just registered leaves the jobs as they were, and its block charged |
| `ArenaEffects.FailsExactly` | memory/Allocator.c:155-801 | for every operation and every state, exactly when it ends the program |
| `ArenaEffects.RootEndsExactly` | memory/Allocator.c:494-521 | freeing the root releases it if and only if no job has asked for more time |
| `SiblingLists.TakenOutLays` | memory/Allocator.c:277-299 | the pointer writes of disconnect remove one allocator from its doubly linked list and disturb no other |
| `SiblingLists.PutInLays` | memory/Allocator.c:302-322 | those of connect put it first on its new list |
| `AllocatorTree.Allocators.constructor` | memory/Allocator.c:803-848 | the new root |
| `AllocatorTree.Allocators.Allocate` | memory/Allocator.c:155-186 | on success the new arena, on refusal nothing changed |
| `AllocatorTree.Allocators.Reallocate` | memory/Allocator.c:545-617 | likewise for a resize or a give-back of a block named by its address |
| `AllocatorTree.Allocators.FindBlock` | memory/Allocator.c:557-573 | its walk finds the first block at that address |
| `AllocatorTree.Allocators.Unlink` | memory/Allocator.c:277-299 | the writes of disconnect, with its assertions proved |
| `AllocatorTree.Allocators.Disconnect` | memory/Allocator.c:277-299 | the cells lay out the tree with c in no list |
| `AllocatorTree.Allocators.Connect` | memory/Allocator.c:302-322 | the cells lay out the tree with c first under p |
| `AllocatorTree.Allocators.MakeChild` | memory/Allocator.c:630-657 | on cells and blocks, the child operation of the arena |
| `AllocatorTree.Allocators.IsAncestor` | memory/Allocator.c:675-696 | recursion and loop over cells compute the ancestor function |
| `AllocatorTree.Allocators.AdoptChild` | memory/Allocator.c:724-761 | on cells and blocks, the adoption of the arena, of which `AdoptExactly` says what it brings about |
| `AllocatorTree.Allocators.DisownChild` | memory/Allocator.c:698-722 | on cells, the disowning of the arena |
| `AllocatorTree.Allocators.DisconnectAllocator` | memory/Allocator.c:324-337 | removes the first entry for the target and says whether there was one |
| `AllocatorTree.Allocators.DisconnectAdopted` | memory/Allocator.c:339-347 | ends one adoption on both sides, with its assertions proved |
| `AllocatorTree.Allocators.Reach` | memory/Allocator.c:357-376 | one visit on cells, with its assertions proved |
| `AllocatorTree.Allocators.PivotLevel` | memory/Allocator.c:350-387 | the recursion visits exactly the allocators of one level, in order |
| `AllocatorTree.Allocators.PivotKids` | memory/Allocator.c:377-385 | its loop along a list that changes under it reaches every child once |
| `AllocatorTree.Allocators.PivotChildren` | memory/Allocator.c:389-398 | the loop over levels ends where the walk on values ends |
| `AllocatorTree.Allocators.RemoveJob` | memory/Allocator.c:214-230 | takes one job off its owner's list |
| `AllocatorTree.Allocators.CancelJob` | memory/Allocator.c:659-672 | the cancel of the arena |
| `AllocatorTree.Allocators.Register` | memory/Allocator.c:763-801 | the registration of the arena |
| `AllocatorTree.Allocators.FindOwner` | memory/Allocator.c:769-776 | the climb finds the top of the freed part |
| `AllocatorTree.Allocators.TakeJobs` | memory/Allocator.c:408-425 | one child's list goes to the end of the top's list |
| `AllocatorTree.Allocators.MarshalJobs` | memory/Allocator.c:405-429 | every job under x, and no other, ends up on the top's list |
| `AllocatorTree.Allocators.DoJobs` | memory/Allocator.c:431-451 | the loop with removal runs every job of the list as the arena does |
| `AllocatorTree.Allocators.ReleaseMemory` | memory/Allocator.c:250-274 | gives one allocator's blocks back in the order of its list; they add up to what it had allocated |
| `AllocatorTree.Allocators.ReleaseAll` | memory/Allocator.c:461-473 | the recursion releases x and everything under it, each once and after all its children, and nothing else; the blocks go back in that order |
| `AllocatorTree.OwnBlockGoesLast` | memory/Allocator.c:250-274 | in such an order the block an allocator lives in goes back after all its other blocks and all its children |
| `AllocatorTree.Allocators.FreeAll` | memory/Allocator.c:453-477 | on cells and blocks, the release of the arena, in that order |
| `AllocatorTree.Allocators.CountBytes` | memory/Allocator.c:72-79 | recursion and loop compute the count |
| `AllocatorTree.Allocators.FreeOne` | memory/Allocator.c:494-521 | on cells, the free of the arena in every branch |
| `AllocatorTree.Allocators.CompleteJob` | memory/Allocator.c:479-492 | on cells, the completion of the arena in every branch |
| `Address.ClosestComparesDistances` | dht/Address.c:142-168 | the four-word comparison is the sign of comparing the 128-bit XOR distances of the rotated addresses |
| `Address.FirstByteDecides` | dht/Address.c:121-168 | the first byte in which two addresses differ, the last eight bytes before the first eight, decides which is closer |
| `Address.FilledExactly` | dht/Address.c:41-47 | an address is filled in exactly when all its bytes are zero |
| `Address.ClosestOrders` | dht/Address.c:142-168 | for a fixed target it is antisymmetric, transitive, and zero only for equal addresses |
| `Address.CompareIsSign` | dht/Address.c:121-131 | the same for any number of words |
| `Address.XorBit` | dht/Address.c:129-130 | the distance differs from zero exactly in the bits where the addresses differ |
| `Address.NodeAddress.GetPrefix` | dht/Address.c:39-49 | fills in an address that is all zero and returns its first rotated word |
| `Address.FindClosest` | dht/Address.c:142-168 | fills in the three addresses and returns the sign |
| `Dict.RunsRefine` | benc/Dict.c:113-219 | after any puts and removes, none of them misled, the list is strictly increasing and holds the finite map |
| `Dict.PutsExactly` | benc/Dict.c:113-139 | for any sorted list and key, putting keeps the order and is putting into the map if and only if the walk, down to the first key not smaller, meets no key whose length misleads the comparison |
| `Dict.LongKeyWitness` | benc/Dict.c:113-139 | the empty key put beside one of 2^32 bytes overwrites its value |
| `Dict.ShortRunsAreTold` | benc/Dict.c:113-219 | no run that puts strings under two gigabytes is misled |
| `Dict.RunsAreCanonical` | benc/Dict.c:113-219 | such histories with one map give one list |
| `Dict.PutRefines` | benc/Dict.c:113-139 | the put of the lexicographic order keeps the order and is putting into the map |
| `Dict.DropRefines` | benc/Dict.c:204-219 | removing keeps the order and is removing from the map |
| `Dict.Canonical` | benc/Dict.c:113-139 | two sorted lists with one map are equal |
| `Dict.ComparesExactly` | benc/String.c:65-80 | the comparison has the sign of the lexicographic order if and only if, for strings one of which starts with the other, the length difference survives 32 bits |
| `Dict.CompareStrings` | benc/String.c:65-80 | its loop |
| `Dict.Dictionary.Size` | benc/Dict.c:21-32 | the number of entries cut to 32 bits, which is the number exactly below 2^31 |
| `Dict.Dictionary.Lookup` | benc/Dict.c:34-50 | lookup in the map, whatever the order of the entries |
| `Dict.Dictionary.Put` | benc/Dict.c:113-139 | for any key and any list, splices the linked entries where the comparison stops and returns the displaced value |
| `Dict.Dictionary.Remove` | benc/Dict.c:204-219 | unlinks the entry and says whether there was one |
| `BufferAllocator.RunKeepsLive` | memory/BufferAllocator.c:61-104 | in every run up to a length that wraps unnoticed, live blocks are aligned, inside the buffer and pairwise disjoint |
| `BufferAllocator.StepKeepsLive` | memory/BufferAllocator.c:79-104 | a call keeps that if and only if its length does not wrap unnoticed, and the assertion that a moved block lies above its old end always holds |
| `BufferAllocator.RewindIsSafe` | memory/BufferAllocator.c:88-92 | rewinding for the last block exposes no other live block |
| `BufferAllocator.GiveBackUndoesAllocate` | memory/BufferAllocator.c:61-96 | giving back the block just allocated undoes the allocation, up to the rounding of the pointer |
| `BufferAllocator.LastIsReused` | memory/BufferAllocator.c:88-96 | the space of the last block is handed out again |
| `BufferAllocator.OthersAreNotReused` | memory/BufferAllocator.c:88-96 | that of any other is not |
| `BufferAllocator.ResizeMoves` | memory/BufferAllocator.c:88-104 | the last block is resized where it is, any other moves above everything |
| `BufferAllocator.FitsExactly` | memory/BufferAllocator.c:61-77 | a block given out fits if and only if its length does not wrap unnoticed |
| `BufferAllocator.WrapIsPossible` | memory/BufferAllocator.c:61-77 | a length that does |
| `BufferAllocator.AlignedFacts` | memory/BufferAllocator.c:57-58 | rounding up moves less than 16 bytes, to a multiple of 16 |
| `BufferAllocator.Buffer.constructor` | memory/BufferAllocator.c:107-122 | an empty buffer |
| `BufferAllocator.Buffer.AllocatorMalloc` | memory/BufferAllocator.c:61-77 | for every length the code moves the pointer as the function does, or throws and leaves it; live blocks stay apart exactly when the length does not wrap |
| `BufferAllocator.Buffer.ProvideMemory` | memory/BufferAllocator.c:79-104 | likewise for a resize and a give-back, with its assertion proved; a refused resize has already moved the pointer back |

## Left out

- The bytes of packets, the authenticator and header layout, and the field that carries the length of the padding: a packet is its fields.
- Curve25519, Salsa20, Poly1305 and SHA: symbolic terms with the equality laws the protocol relies on.
- RunKeepsInv: a run of two sessions has no receive by a session that is not established and has counted past 0xfffffffc, because there the program breaks its own invariant; agreement, at-most-once delivery and nonce freshness are not claimed past such a receive.
- WhatIsSaidArrives: packets arrive in the order they are sent or not at all; of one that arrives out of order `TrafficAcceptedExactly` says whether it is delivered.
- ApplyKeepsInv: callers name allocators that exist and do not resize the block an allocator lives in, a new allocator or job gets a name not in use, and the provider hands no allocator its own address and no block of 2^63 bytes or more; `AllocationAccountsExactly` says what the last excludes.
- StepKeepsLive: the buffer ends at least 16 bytes before the end of the address space, and callers name live blocks.
- The table of users and passwords: a lookup gives a user or nothing.
- Callbacks that call back into the allocator: a callback is a verdict, synchronous or asynchronous.
- Canaries, identity words, poisoning of released memory, snapshots and logging.
- Blocks that overlap: the address of a block names it, and only that an allocator is not handed its own is used.
- AdoptChild: takes all four blocks before it writes either list entry, where the program takes the last one between the two writes; a refusal ends the program either way.
- Allocators: adoption and job lists are sequences, not chains of list cells; the sibling lists are chains.
- Malloc: blocks of no bytes, which the allocator tree never asks for, are not tracked as live.
- ProvideMemory: claims address ranges, not the bytes copied when a block moves.
- Null dictionaries and null keys, and dictionaries built unsorted.
- RunsRefine: runs with a misled put; `PutsExactly` says of each put whether it is, and past one the list need not be sorted.
- Size: a signed counter that passes 2^31 - 1 is taken to wrap, where C leaves it undefined.
- Address strings, serialisation and the hash that derives an address from a key.
- Admin RPC, configuration, routing, network interfaces and file access.
