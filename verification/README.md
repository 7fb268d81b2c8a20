# VoiceCall: a verified model

This project models the server and client logic of the VoiceCall repository (a Node.js and a
Rust signaling server and a Flutter client) in Dafny, and proves what that logic keeps and what
it does not. It covers eight machines:

1. **Calls** (`CallModel`, `CallForest`, `CallMatching`, `CallOrphans`, `CallServer`): the call
   half of the Node signaling server, with its tables of online clients and live calls and the call
   id kept on each socket.
2. **Rooms** (`RoomModel`, `RoomRendezvous`, `RoomServer`): the two-party meeting over a room link.
3. **SDP rewriting** (`Text`, `StableSort`, `CodecPreference`, `CodecNames`, `SdpModel`, `SdpLines`,
   `SdpBridge`, `SdpAppendLines`, `SdpTransform`, `SdpAppend`, `SdpRest`, `SdpTwice`,
   `SdpIdempotence`, `SdpOneOpus`, `PreferCodec`, `SdpSearch`, `SdpResult`, `SdpSamples`,
   `SdpOffers`, `SdpRewriter`): codec preference (section 5.1 of RFC 3264) and Opus parameters (section 7 of RFC 7587) as edits of real
   text.
4. **ICE candidates** (`IceQueue`): the queue that holds candidates back until the remote
   description is set (section 11 of RFC 8838), its awaits interleaving.
5. **Contacts** (`ContactRows`, `InviteLinks`, `ContactHandlers`, `ContactsServer`,
   `ContactCache`, `ContactsClient`): the contacts table and an invite link statement by statement,
   the handlers run one at a time, and the client's lists against both.
6. **Refresh tokens** (`TokenStore`, `TokenServer` for the Rust server; `NodeTokens`,
   `NodeSessions` for the Node server): rotation and reuse detection (section 10.4 of RFC 6749).
7. **Group rooms** (`SfuModel`, `SfuViews`, `SfuServer`) and **message routing** (`HubModel`,
   `HubRouting`, `HubServer`) of the Rust server.
8. **Wire format** (`HexCodec`, `SignalingCrypto`): hex (section 8 of RFC 4648), the colon and the
   tag around an arbitrary cipher.

Each machine has a value-level model (a state, events, a step function, runs as sequences of
events) about which the theorems are proved for every run. Classes and methods in the source's
own imperative form remember, as ghost state, the events they have handled: they keep their fields
equal to what the model says after those events, so what is proved of every run is what their
contracts say of an object in use.  Their contracts also give the whole new state and all that is
sent, in terms of the old fields.
`Wrappers` holds Option and Result. Check everything with `dafny verify dfyconfig.toml` (Dafny 4.11).

## Where the code and its documents disagree

The model follows the code.

- "Target user in another call" is answered by a look at the callee only. One user can be in two
  live calls (`CallOrphans.OneUserInTwoCalls`); what does hold is that live calls form a forest.
- "All sessions are invalidated" on reuse holds in the Rust server only up to the ten most recent
  stores, dead ones counted (`TokenStore.ReuseEndsEverySessionIff`).
- "Single-use" refresh tokens need fresh tokens in the Node server, whose tokens have no id and a
  time stamp in seconds (`NodeTokens.RotationConsumesIff`, `NodeTokens.SameSecondReuse`).
- "Blocked users cannot call you" holds in runs with no invite redeemed
  (`ContactHandlers.BlockedForGood`); redeeming an invite does not look at the reverse row.
- An invite link has one use, but two redemptions that overlap give it any number
  (`InviteLinks.RedeemedTwiceIffTwoLooks`, `InviteLinks.OverdrawnIsUnlimited`).
- The comment in `contacts.rs` that 0 uses left means unlimited: the code refuses such a link.
- The comment "append after the rtpmap line" in `injectOpusFmtp`: the branch overwrites that line
  (`SdpAppend.OpusLineSurvivesIff`), and so a second `transformSdp` can undo what the first did
  (`SdpIdempotence.TransformTwiceIsOnceIff`).

## Assumptions

- Node signaling: a socket authenticates as one user, in one step; user ids are UUID texts of 36
  characters; other handlers are atomic. A missing or falsy field is the empty string. Where it matters that a
  call id is new (`CallOrphans`), no user calls another twice within a millisecond. Ids of created
  rooms are new.
- SDP: lower-casing is that of ASCII; the codec names put into regular expressions are read
  literally. `Tidy` texts have no stray line ends, and rtpmap and fmtp text only at line starts.
- Rust tokens: handlers run one at a time with one clock reading each, token ids are never drawn
  twice, the time to live is one constant, and Redis evicts nothing.
- Contacts: the authenticated user has an account. `ContactRows` and `InviteLinks` assume nothing
  of the order of statements; `ContactHandlers` runs handlers one at a time.
- Group rooms: notifications are queued in the order they are made. Hub: every instance sees the
  whole channel in order, and a send is one step.
- Clocks, random ids and nonces, signature checks, database lookups outside the tables modelled,
  and the cipher and text encoding are parameters.

## Model

| member | source | states |
|---|---|---|
| CallModel.CallIdParses | server/src/signaling/signalingServer.js:102-103 | a call id determines its caller and callee, whatever the clock said, because user ids have one length |
| CallModel.DecimalIsNotation | server/src/signaling/signalingServer.js:102-103 | the clock's reading stands in a call id in decimal notation, with no leading zero |
| CallForest.LiveCallsFormForest | server/src/signaling/signalingServer.js:84-117 | in every reachable state the live calls, as edges from caller to callee, form a directed forest: no user is callee of two calls and no path of any length closes; registrations name sockets of their user; every held call id, live or stale, names its holder as a party |
| CallForest.NoLiveCallIsOverwritten | server/src/signaling/signalingServer.js:94-103 | over any run, `activeCalls.set` never writes over a live call |
| CallForest.OnlyAPartyEndsACall | server/src/signaling/signalingServer.js:149-316 | over any run, a live record disappears only in the decline, hangup or close of a socket of its caller or callee that holds its id |
| CallMatching.MatchingKeptIffCallerWasFree | server/src/signaling/signalingServer.js:94-103 | an accepted call keeps every user in at most one live call if and only if the caller was in none: the busy check never looks at the caller |
| CallOrphans.OneUserInTwoCalls | server/src/signaling/signalingServer.js:94-106 | a concrete run that ends with one user in two live calls |
| CallMatching.DisciplinedCallsAreHeld | server/src/signaling/signalingServer.js:84-171 | if clients call only when free and hang up only their own call, live calls are a matching and each is the current call of an unclosed socket on both sides, through session replacement, reaping and closes in any order |
| CallMatching.NoSocketsNoCalls | server/src/signaling/signalingServer.js:302-316 | in such a run the call table is empty once all sockets have closed |
| CallMatching.HangingUpOnThePeerIsHarmless | server/src/signaling/signalingServer.js:158-171 | a hangup sent to the other party of one's live call is never the kind that orphans a call |
| CallMatching.EndingACallFreesBoth | server/src/signaling/signalingServer.js:143-316 | in a run of such clients, when a socket that holds a live call declines, hangs up or closes, neither party is busy any more |
| CallOrphans.HangUpKeepsCallsHeldIff | server/src/signaling/signalingServer.js:158-171 | a hangup leaves every remaining live call held on both sides if and only if the registered socket it is sent to is in no live call, or is another socket than the sender's and in the same one |
| CallOrphans.AcceptKeepsHeldIff | server/src/signaling/signalingServer.js:102-106 | an accepted call leaves the calls that were live held on both sides if and only if the socket it was placed on was in none: its call id is overwritten |
| CallOrphans.EventKeepsHeldIff | server/src/signaling/signalingServer.js:84-335 | for every event of the server: the live calls stay held on both sides if and only if it is neither such a call nor such a hangup |
| CallOrphans.HeldThroughoutIff | server/src/signaling/signalingServer.js:84-335 | for every run: each live call is held on both sides all along if and only if no event orphaned one, and then no record outlives the sockets |
| CallOrphans.OutlivesTheSocketsIff | server/src/signaling/signalingServer.js:302-316 | for every run that ends with all sockets closing: a record outlives them if and only if its call was live and on no socket when the closing began |
| CallOrphans.CallsAloneOrphanARecord | server/src/signaling/signalingServer.js:102-106 | a concrete run of calls only, no hangup and no decline, that leaves a record which outlives every socket |
| CallOrphans.CallsHaveSoleHolders | server/src/signaling/signalingServer.js:95-106 | over any run no two sockets of one user ever hold the same call id, as long as call ids are fresh |
| CallOrphans.RecordOutlivesAllSockets | server/src/signaling/signalingServer.js:158-171 | a concrete run in which a stray hangup leaves a record that outlives every socket, its callee busy for ever |
| CallServer.SignalingServer.OnAuth | server/src/signaling/signalingServer.js:52-71 | a server that has handled any run and now this: the user is registered on this socket; another socket it was registered on is told `session-replaced` and terminated, and no other socket changes; this one is told `auth-success`; live calls stay a forest, unchanged |
| CallServer.SignalingServer.OnCall | server/src/signaling/signalingServer.js:84-117 | the call is set up if and only if the socket is authenticated, calls somebody else who is online, and that user is a party of no live call: one more record under the id, the id on the sockets of both and no other, `call-incoming` sent to the callee and nobody else; otherwise the tables stay and the caller is told why, in the order of the tests; still a forest, every live record kept |
| CallServer.SignalingServer.OnDecline | server/src/signaling/signalingServer.js:143-155 | on an authenticated socket: the record it holds goes and no other, its own call id is cleared and no other, the other user is sent the reason, `busy` if none is given; otherwise only an error is sent; still a forest, and only a party's own call can have gone |
| CallServer.SignalingServer.OnHangup | server/src/signaling/signalingServer.js:158-171 | the same for hangup, which also clears the call id of the registered socket of the other user and sends it `hangup` |
| CallServer.SignalingServer.OnClose | server/src/signaling/signalingServer.js:302-319 | the socket goes; if it was authenticated, its user is unregistered, the record it holds goes and no other, and the other party, if online, is sent that its peer disconnected; still a forest |
| CallServer.SignalingServer.OnHeartbeatInterval | server/src/signaling/signalingServer.js:327-335 | the loop over all sockets, in whatever order: sockets that answered the last ping are pinged and stay as they are, the others are terminated, and just their users are unregistered; live calls and mail stay |
| CallServer.SignalingServer.OnAnswer | server/src/signaling/signalingServer.js:120-128 | the answer goes to the socket the other user is registered on, if it is open, and to nobody else; nothing changes but the mail |
| CallServer.SignalingServer.OnIce | server/src/signaling/signalingServer.js:131-140 | the same for a candidate, sent on with the id of its sender; an incomplete one is ignored |
| RoomModel.CalleeSetIffOfferSet | server/src/signaling/signalingServer.js:174-287 | in every reachable state an entry has a joiner if and only if it has an offer, and has a host or a joiner |
| RoomModel.FirstJoinerStays | server/src/signaling/signalingServer.js:174-342 | over any run in which created rooms have new ids, a recorded joiner stays with its offer, whoever else joins or hosts, until a hangup or the clean-up takes the entry away |
| RoomRendezvous.Rendezvous | server/src/signaling/signalingServer.js:196-250 | from any room-host messages of one open host and any join attempts on a valid room, in any order, at least one of each, whatever else goes on at the server in between: the entry ends as (host, first joiner, first offer), the host has been sent that introduction, and no other offer of the room reaches anyone |
| RoomRendezvous.RendezvousIsOrderFree | server/src/signaling/signalingServer.js:205-250 | two runs with the same first joiner end in the same entry, creation time aside, whatever the order of arrival and the other traffic |
| RoomRendezvous.ReapedIffHostCameFirst | server/src/signaling/signalingServer.js:208-342 | the creation time does depend on the order: the clean-up takes an entry if and only if its host came first and more than 24 hours ago |
| RoomRendezvous.MessagesCrossTheRoom | server/src/signaling/signalingServer.js:253-274 | after the meeting, answers and the host's candidates go to the first joiner and the joiner's candidates to the host |
| RoomServer.RoomTable.OnJoinRoom | server/src/signaling/signalingServer.js:196-228 | a table that has handled any run and now this: a join with nothing missing on a valid room opens an entry, or fills one that has no joiner, keeping its host and creation time, and tells the host, if open, else the joiner to wait; any other changes nothing and tells the joiner why; joiners and offers paired, a joiner that was there before not displaced |
| RoomServer.RoomTable.OnRoomHost | server/src/signaling/signalingServer.js:231-250 | the same for room-host: the host is recorded, joiner, offer and creation time being kept, and is told of a joiner already there |
| RoomServer.RoomTable.OnRoomHangup | server/src/signaling/signalingServer.js:277-287 | the entry goes, and the joiner is told if the host hung up, else the host; entries stay paired |
| RoomServer.RoomTable.OnRoomAnswer | server/src/signaling/signalingServer.js:253-261 | the answer goes to the recorded joiner, if open, and to nobody else |
| RoomServer.RoomTable.OnRoomIce | server/src/signaling/signalingServer.js:264-274 | a candidate goes to the joiner from the caller's side and to the host from the callee's, and to nobody else |
| RoomServer.RoomTable.OnCleanup | server/src/signaling/signalingServer.js:337-342 | the clean-up loop removes the entries created more than 86400000 ms ago, and no other |
| Text.JoinSplit | lib/services/rfc_webrtc.dart:306-351 | joining what was split gives the text back, for every text |
| Text.SplitJoin | lib/services/rfc_webrtc.dart:306-351 | splitting what was joined gives the parts back, when no part contains the separator |
| StableSort.SortBelowIsStableSort | lib/services/rfc_webrtc.dart:333-349 | the reference sort is sorted and keeps equal ranks in order |
| StableSort.StableSortIsUnique | lib/services/rfc_webrtc.dart:333-349 | there is only one stable sort |
| StableSort.StableSortIsPermutation | lib/services/rfc_webrtc.dart:333-349 | a stable sort is a permutation, duplicates included |
| CodecPreference.RankIsFirstMatch | lib/services/rfc_webrtc.dart:337-341 | the rank of a payload type is the index of the first preferred codec it matches, the length of the list if none |
| CodecNames.AudioRank | lib/services/rfc_webrtc.dart:280-349 | for the audio list: a payload type whose table entry contains `opus` comes first, then `pcmu`, then `pcma`, then the rest |
| CodecNames.VideoRank | lib/services/rfc_webrtc.dart:280-349 | for the video list: `vp9`, then `vp8`, `h264`, `av1`, then the rest |
| CodecPreference.PreferredIsTheStableSort | lib/services/rfc_webrtc.dart:333-349 | the reordered payload types are the one stable sort by rank, and nothing else is |
| CodecPreference.PreferredIsPermutation | lib/services/rfc_webrtc.dart:333-349 | reordering is a permutation even with duplicate payload types |
| CodecPreference.DrainClaims | lib/services/rfc_webrtc.dart:337-347 | one turn of the outer loop moves exactly the payload types whose first match is this codec, in order |
| CodecPreference.OrderPayloadTypes | lib/services/rfc_webrtc.dart:333-349 | the nested remove-and-append loops compute the stable sort |
| CodecPreference.MoveMatching | lib/services/rfc_webrtc.dart:342-346 | the inner loop moves each match that is still there |
| CodecPreference.PreferredIdempotent | lib/services/rfc_webrtc.dart:333-349 | sorting payload types twice is sorting them once |
| SdpRewriter.ReorderCodecs | lib/services/rfc_webrtc.dart:301-352 | the whole function, loops and early returns, computes the line-wise rewriting the lemmas below are about |
| SdpRewriter.FindLine | lib/services/rfc_webrtc.dart:307-315 | the loop finds the first line with the prefix, and none only if there is none |
| SdpRewriter.BuildRtpTable | lib/services/rfc_webrtc.dart:318-325 | the table loop computes the payload-type table, later lines winning |
| SdpSearch.ParseRtpMapIff | lib/services/rfc_webrtc.dart:318-325 | a line gives a payload type a codec if and only if its lower-cased form is `a=rtpmap:`, digits, a space and that codec, which is not empty, with no line end inside |
| SdpSearch.RtpTableIff | lib/services/rfc_webrtc.dart:317-325 | the table holds for a payload type what the last line that gives it one says |
| SdpTransform.ReorderChangesOnlyTheOrder | lib/services/rfc_webrtc.dart:301-352 | every line but the first m-line of the medium comes back unchanged; that line keeps its first three fields and gets its payload types stably sorted; for every input text |
| SdpTransform.ReorderIdempotent | lib/services/rfc_webrtc.dart:301-352 | reordering twice is reordering once |
| SdpTransform.AudioVideoCommute | lib/services/rfc_webrtc.dart:537-547 | the audio and the video reordering commute, on every text and for all preference lists |
| SdpBridge.FirstOpusIsOpusOf | lib/services/rfc_webrtc.dart:365-369 | on tidy texts the first Opus match over the whole text is the first Opus line |
| SdpSearch.FirstOpusIff | lib/services/rfc_webrtc.dart:365-369 | for every text: Opus is found with the digits at the first place where the lower-cased text has `a=rtpmap:`, digits and ` opus/48000/2`, and is not found only if there is none |
| SdpBridge.ReplaceFmtpByLine | lib/services/rfc_webrtc.dart:375-378 | on tidy texts the global replacement rewrites exactly the fmtp lines of the Opus payload type |
| SdpTransform.TransformSdpIdempotent | lib/services/rfc_webrtc.dart:528-563 | the pipeline is idempotent on tidy SDP when no Opus line is overwritten; `SdpIdempotence.TransformTwiceIsOnceIff` has the exact condition |
| SdpResult.TransformedLine | lib/services/rfc_webrtc.dart:528-563 | for every tidy text in which no Opus line is overwritten, line by line: the parameter lines of Opus become the written one, the first `m=audio ` line gets its payload types sorted by the list opus, PCMU, PCMA, and with video the first `m=video ` line by VP9, VP8, H264, AV1; all other lines stay |
| SdpResult.OpusParametersAre | lib/services/rfc_webrtc.dart:363-378 | the parameter lines of Opus in the result are those there were, and each reads `useinbandfec=1;usedtx=1;minptime=10;maxaveragebitrate=96000` for low latency and `useinbandfec=1;usedtx=0;minptime=20;maxaveragebitrate=64000` otherwise |
| SdpOffers.FullOfferTransformed | lib/services/rfc_webrtc.dart:528-563 | an offer of PCMU, Opus, VP8, VP9 with any payload types, spelled out before and after: Opus first, VP9 first, the parameters written, nothing else changed |
| SdpResult.OverwrittenLines | lib/services/rfc_webrtc.dart:380-384 | for every tidy text in which an Opus line is overwritten: two lines stand for it, the replacement text and the written parameters with what followed |
| SdpOffers.PlainOfferOverwritten | lib/services/rfc_webrtc.dart:380-384 | the same, spelled out, for an offer of Opus alone |
| SdpTwice.TransformTwiceUndoesTheOrder | lib/services/rfc_webrtc.dart:528-563 | concrete texts with an overwritten Opus line on which it is not: the second pass puts Opus behind PCMU again |
| SdpIdempotence.TransformTwiceIsOnceIff | lib/services/rfc_webrtc.dart:528-563 | for every tidy text: transforming twice is transforming once if and only if no Opus line is overwritten, or the audio payload types, sorted under the whole table, are still in order under the table of the lines that stay, and those lines leave the injection nothing to change (no Opus; or right parameters; or none and no line spelled as the replacement looks for it), and, if the same payload type is still Opus there, nothing followed the overwritten text on its line |
| SdpOneOpus.OneOpusTwiceIsOnceIff | lib/services/rfc_webrtc.dart:528-563 | in particular, when one payload type is all the Opus there is and its line is overwritten: if and only if the audio line does not offer it together with another payload type of a preferred codec |
| SdpOneOpus.PlainOfferTwiceIsOnce | lib/services/rfc_webrtc.dart:528-563 | so every offer of Opus alone, with no parameters, is transformed once and for all although its Opus line is overwritten |
| SdpOneOpus.MovedLastIff | lib/services/rfc_webrtc.dart:333-349 | when a second table drops the most preferred payload type to the end and ranks the others alike, a list sorted by the first is in order for the second if and only if it does not hold that payload type together with another preferred one |
| SdpTransform.TransformKeepsRtpTable | lib/services/rfc_webrtc.dart:317-563 | when no Opus line is overwritten the pipeline leaves the payload-type table as it was |
| SdpIdempotence.TransformKeepsRtpTableIff | lib/services/rfc_webrtc.dart:317-563 | for every tidy text: the table survives if and only if no Opus line is overwritten, or the lines that stay give that payload type the same codec |
| SdpAppend.OpusLineSurvivesIff | lib/services/rfc_webrtc.dart:363-384 | for every tidy text with Opus: injection keeps an Opus line for the payload type if and only if there already was an fmtp line or some Opus line is spelled in another case; the appending branch overwrites all others, because the replacement text `$1` is taken literally |
| SdpAppend.PlainOfferLosesOpus | lib/services/rfc_webrtc.dart:380-384 | concrete texts, an m-line and its Opus line, for which it is lost |
| SdpRewriter.TransformSdpText | lib/services/rfc_webrtc.dart:528-547 | the three assignments, over the looping reordering, give what the lemmas above are about; for tidy texts in which no Opus line is overwritten, line by line |
| SdpSearch.PreferredPtIff | lib/services/video_call_service.dart:738-746 | a payload type is preferred if and only if the first line whose lower-cased form has `a=rtpmap:`, digits, a space and the lower-cased name of the codec has it as those digits at its first such place; none if and only if no line has one |
| SdpSearch.PreferMovesTheNamedType | lib/services/video_call_service.dart:724-763 | for every text and codec name: only the first m=video line can change; if it offers that payload type, this is taken out at its first place and put in front, the first three fields and the order of the others being kept |
| SdpSearch.PreferNothing | lib/services/video_call_service.dart:748 | where no line names the codec the text comes back as it was |
| SdpOffers.Vp9Preferred | lib/services/video_call_service.dart:724-763 | an offer with Opus before VP8 and VP9, any payload types: preferring VP9 puts VP9 first on the video line |
| PreferCodec.PreferIdempotent | lib/services/video_call_service.dart:724-763 | preferring the same codec twice is preferring it once |
| SdpRewriter.PreferCodecText | lib/services/video_call_service.dart:724-763 | the two searches and the edits of lists in place compute the rewriting of the four rows from `SdpSearch.PreferredPtIff` on |
| SdpRewriter.FindPayloadType | lib/services/video_call_service.dart:740-748 | the loop finds the first line that names the codec, and the digits at its first such place; none if and only if no line does |
| IceQueue.NothingBeforeRemoteDescription | lib/services/rfc_webrtc.dart:108-128 | nothing is handed to the peer connection before the remote description is set, and the buffer is empty ever after |
| IceQueue.HandedInArrivalOrder | lib/services/rfc_webrtc.dart:108-136 | at any time, whatever awaits interleave or throw, the flushed candidates are the early ones in arrival order as far as the loop has got, and the direct ones are the late ones |
| IceQueue.CompletedFlush | lib/services/rfc_webrtc.dart:112-114 | a finished flush has handed over every early candidate that no dispose dropped, in order |
| IceQueue.FlushAdvances | lib/services/rfc_webrtc.dart:112-136 | whatever the awaited calls throw: one candidate has been handed over when the remote description was set and one more at each return of an await, until all that was kept is |
| IceQueue.CompletedIff | lib/services/rfc_webrtc.dart:112-136 | so a run has completed if and only if the remote description was set and the await came back once for each early candidate kept, but one |
| IceQueue.ExactlyOnceIffNothingDropped | lib/services/rfc_webrtc.dart:99-141 | in a completed run every candidate given has been handed over exactly once if and only if no dispose dropped any |
| IceQueue.NoDisposeDropsNothing | lib/services/rfc_webrtc.dart:138-140 | without dispose nothing is dropped |
| IceQueue.IceCandidateQueue.AddCandidate | lib/services/rfc_webrtc.dart:120-128 | buffers before the remote description, hands over after it, and does not do the other thing |
| IceQueue.IceCandidateQueue.OnRemoteDescriptionSet | lib/services/rfc_webrtc.dart:108-114 | the buffer is emptied into a flush loop, whose first candidate, if any, is handed over at once |
| IceQueue.IceCandidateQueue.OnResumed | lib/services/rfc_webrtc.dart:112-114 | whether the await returned or threw, the loop hands over its next candidate, if it has one, and keeps the rest |
| TokenStore.RevokeAllExactly | server-rust/src/db/redis_store.rs:35-95 | for every run and clock, after revoke-all a token is valid if and only if it was valid before and is not among the ten ids most recently stored for that user; other users keep theirs |
| TokenStore.LiveRecentTokenIsListed | server-rust/src/db/redis_store.rs:35-60 | over any run, a token neither expired nor revoked with fewer than ten later stores is on an unexpired list |
| TokenStore.ValidIffLive | server-rust/src/routes/auth.rs:141-242 | the lifetime of a token, exactly: it is valid from its storing until its time is up, its own exchange or logout, or a revoke-all that finds fewer than ten newer stores |
| TokenStore.ReuseEndsEverySessionIff | server-rust/src/routes/auth.rs:153-168 | a detected reuse ends every session if and only if no valid token is older than the ten most recent stores |
| TokenStore.RevokeAllMissesTheEleventh | server-rust/src/db/redis_store.rs:54-95 | a concrete run: after eleven logins and a logout everywhere the first login is still valid |
| TokenStore.DeadStaysDead | server-rust/src/routes/auth.rs:141-209 | over any run with fresh ids, a token that has become invalid by rotation, logout, revoke-all or expiry never becomes valid again |
| TokenStore.RotationConsumes | server-rust/src/routes/auth.rs:170-172 | a successful exchange leaves the presented token invalid |
| TokenStore.ExchangedAtMostOnce | server-rust/src/routes/auth.rs:141-177 | over any run with fresh ids each refresh token is exchanged successfully at most once |
| TokenServer.RedisStore.StoreRefreshToken | server-rust/src/db/redis_store.rs:35-60 | the key expires after the time to live; the list, empty if it had expired, gets the id in front, is cut to ten and expires with it |
| TokenServer.RedisStore.RevokeAllRefreshTokens | server-rust/src/db/redis_store.rs:82-95 | the keys of the listed ids go, if the list has not expired, and no other; so does the list |
| TokenServer.AuthHandlers.OnRefresh | server-rust/src/routes/auth.rs:141-177 | after any run of requests with fresh ids: a token that is accepted was never exchanged before and is dead now; a refused one leaves the user no session but those older than the ten newest; one with a bad signature changes nothing |
| TokenServer.AuthHandlers.OnLogout | server-rust/src/routes/auth.rs:192-209 | the three cases of logout, and what is dead afterwards |
| NodeTokens.AtMostFive | server/src/routes/auth.js:97-149 | over any run, with any tokens, a user has at most five good refresh tokens |
| NodeTokens.WithoutIsFilter | server/src/routes/auth.js:146-171 | filtering a list takes out every copy of the token and keeps all others in their order |
| NodeTokens.RotationEvictsNobody | server/src/routes/auth.js:146-149 | in every reachable state a rotation keeps all other sessions, in order, ahead of the new token: the final slice cuts nothing |
| NodeTokens.RotationKeepsCountIff | server/src/routes/auth.js:146-149 | it keeps the number of sessions if and only if the token was listed once |
| NodeTokens.LoginEvictsAtMostTheOldest | server/src/routes/auth.js:94-99 | a login ends at most one session, the oldest, and only of a full list |
| NodeTokens.OnlyReuseEmptiesTheList | server/src/routes/auth.js:131-140 | a signed token that is not listed ends every session; no other request ends more than the sessions of one token |
| NodeTokens.RotationConsumesIff | server/src/routes/auth.js:145-149 | a rotation consumes the presented token if and only if the generated one differs |
| NodeTokens.ExchangedTwiceWasReissued | server/src/routes/auth.js:119-150 | with no assumption: a token exchanged twice was put on the list again in between |
| NodeTokens.GoneForGood | server/src/routes/auth.js:47-169 | with fresh tokens, one that has left the list in whatever way never comes back |
| NodeTokens.ExchangedAtMostOnce | server/src/routes/auth.js:119-150 | with fresh tokens, each is exchanged at most once |
| NodeTokens.SameSecondReuse | server/src/routes/auth.js:145-149 | without fresh tokens the same one is exchanged twice: a concrete run |
| NodeSessions.UserDocument.OnLogin | server/src/routes/auth.js:91-100 | after any run of requests: at most five tokens, and a full list loses its oldest only |
| NodeSessions.UserDocument.OnLogout | server/src/routes/auth.js:165-175 | the presented token goes, in every copy, and the others stay in their order |
| NodeSessions.UserDocument.OnRefresh | server/src/routes/auth.js:119-154 | after any run of requests: at most five tokens; all sessions but the presented one stay in order ahead of the new one, or the list is emptied |
| ContactRows.PendingIff | server-rust/src/routes/contacts.rs:257-550 | under any interleaving of statements a row is pending exactly when some request or invite put it there and nothing has answered it since |
| ContactRows.AcceptedIff | server-rust/src/routes/contacts.rs:292-303 | a row is accepted exactly when its target accepted it while pending and nothing has undone that |
| ContactRows.BlockedIff | server-rust/src/routes/contacts.rs:371-397 | a blocked row stands exactly until the blocker's own request overwrites it or either of the pair blocks again |
| ContactRows.CanCallIffConsented | server-rust/src/routes/contacts.rs:571-587 | two users may call each other exactly when one asked, the other then accepted, and neither has been taken back, however statements interleave |
| ContactRows.EveryCallHasConsent | server-rust/src/signaling/server.rs:164-200 | every call-incoming was preceded by a request of one party and a later accept by the other that stood when the handler looked |
| ContactRows.StaleRequestErasesBlock | server-rust/src/routes/contacts.rs:235-397 | a concrete interleaving in which the blocker's own stale request erases the block and a call goes through |
| ContactHandlers.SerialRunsAreTraces | server-rust/src/routes/contacts.rs:210-563 | a run of whole handlers is one of those interleavings and leaves the same table |
| ContactHandlers.BlockedPairStays | server-rust/src/routes/contacts.rs:366-400 | with handlers one at a time, a pair of which one has ever blocked the other keeps a blocked row |
| ContactHandlers.ReopenedIffBlockerAccepts | server-rust/src/routes/contacts.rs:285-563 | after the last block, the two may call each other exactly when the blocked user has redeemed an invite of the blocker since, the blocker has then accepted, and neither has removed the other again |
| ContactHandlers.SecondRowNeedsInvite | server-rust/src/routes/contacts.rs:538-550 | only redeeming an invite gives a pair a second row |
| ContactHandlers.OneRowPerPair | server-rust/src/routes/contacts.rs:235-268 | in runs with no redemption every pair has at most one row |
| ContactHandlers.BlockedForGood | server-rust/src/routes/contacts.rs:235-400 | in runs with no redemption a pair with a block never may call again |
| ContactHandlers.InviteReopensBlockedPair | server-rust/src/routes/contacts.rs:538-550 | a concrete run with a redemption: a pair holds a blocked and an accepted row at once |
| ContactHandlers.UsesLeftIff | server-rust/src/routes/contacts.rs:525-536 | a link is used up exactly when it has been redeemed, and has one use or none |
| ContactHandlers.RedeemedAtMostOnce | server-rust/src/routes/contacts.rs:506-536 | with handlers one at a time, a link is redeemed at most once |
| InviteLinks.RedeemedTwiceIffTwoLooks | server-rust/src/routes/contacts.rs:506-536 | under any interleaving of the looks and the decrements of handlers, a link is redeemed more than once only if two of them found it before the first decrement; and when all that found it have finished, exactly then |
| InviteLinks.OverdrawnIsUnlimited | server-rust/src/routes/contacts.rs:525-536 | a link with less than no use left can be redeemed any number of times more until it expires |
| InviteLinks.TwoOverlappingOverdraw | server-rust/src/routes/contacts.rs:506-536 | a concrete interleaving that overdraws a link |
| ContactsServer.ContactsDb.OnSendRequest | server-rust/src/routes/contacts.rs:210-280 | refused in the order: oneself, an unknown user, a row of the pair in either direction, by its status; otherwise one pending row is added; nothing else changes |
| ContactsServer.ContactsDb.OnAcceptRequest | server-rust/src/routes/contacts.rs:285-319 | a pending row of the requester becomes accepted; with none, an error and no change |
| ContactsServer.ContactsDb.OnDeclineRequest | server-rust/src/routes/contacts.rs:323-338 | a pending row of the requester goes, and nothing else |
| ContactsServer.ContactsDb.OnRemoveContact | server-rust/src/routes/contacts.rs:342-362 | the accepted rows of the pair go, and nothing else |
| ContactsServer.ContactsDb.OnBlockUser | server-rust/src/routes/contacts.rs:366-400 | both rows of the pair go; then, if the other user exists, a blocked row is added, else the handler fails |
| ContactsServer.ContactsDb.OnGenerateInvite | server-rust/src/routes/contacts.rs:458-490 | a link with a new token is stored with one use, for 86400 seconds; a token there is fails |
| ContactsServer.ContactsDb.BlocksStand | server-rust/src/routes/contacts.rs:366-400 | in a database in use, a pair of which one ever blocked the other is still a blocked pair |
| ContactsServer.ContactsDb.OnUseInvite | server-rust/src/routes/contacts.rs:502-563 | refused as not found if the link is unknown, of another owner or expired, else as bad if no use is left; otherwise one use is taken and a pending row added unless there is a row; an accepted link was never accepted before |
| ContactsServer.ContactsDb.ListContacts | server-rust/src/routes/contacts.rs:91-135 | each user is named once for every accepted row of the two |
| ContactsServer.ContactsDb.PendingRequests | server-rust/src/routes/contacts.rs:138-170 | each user with a pending request is named once, and no other |
| ContactsServer.ContactsDb.OnCall | server-rust/src/signaling/server.rs:164-200 | which of the five outcomes a call request has; the callee is rung only if one of the two asked, the other accepted, and that still stands |
| ContactCache.AmongUsers | server-rust/src/routes/contacts.rs:235-550 | foreign keys hold in every reachable state |
| ContactCache.EditIsReload | lib/services/contacts_service.dart:213-258 | declining, removing and blocking edit the client's lists to what a fresh load would give |
| ContactCache.ListsStayFresh | lib/services/contacts_service.dart:137-258 | once loaded, after any sequence of the user's own actions, refused ones included, the lists are what a fresh load would give |
| ContactCache.ClientKnowsWhoCanBeCalled | lib/services/contacts_service.dart:276-280 | so the client's canCall is the server's can_call, and its pending list names exactly the requests it could accept |
| ContactCache.NamedTwiceNeedsInvite | server-rust/src/routes/contacts.rs:91-110 | list_contacts names exactly the callable users, and one twice only if an invite was redeemed between the two |
| ContactsClient.ContactsService.LoadAll | lib/services/contacts_service.dart:137-158 | afterwards the lists are fresh: they name exactly the accepted contacts and the pending requesters |
| ContactsClient.ContactsService.SendRequest | lib/services/contacts_service.dart:182-196 | effect on server and lists together: fresh lists stay fresh, and are fresh after success |
| ContactsClient.ContactsService.AcceptRequest | lib/services/contacts_service.dart:200-209 | the same for accepting; it reports success exactly for a pending request |
| ContactsClient.ContactsService.DeclineRequest | lib/services/contacts_service.dart:213-223 | the same for declining |
| ContactsClient.ContactsService.RemoveContact | lib/services/contacts_service.dart:227-237 | the same for removing |
| ContactsClient.ContactsService.BlockUser | lib/services/contacts_service.dart:244-256 | the same for blocking |
| ContactsClient.RemoveWhereIsFilter | lib/services/contacts_service.dart:216-248 | removeWhere takes out every entry of the user and keeps the others in their order |
| ContactsClient.ContactsService.CanCallUser | lib/services/contacts_service.dart:276-280 | given fresh lists, the answer is the server's |
| SfuModel.StoredRoomsAreInhabited | server-rust/src/signaling/sfu_relay.rs:83-398 | in every reachable state each stored room has between one and sixteen participants |
| SfuModel.FirstSixteenAreAdmitted | server-rust/src/signaling/sfu_relay.rs:199-223 | however many different users join an empty room in turn, just the first sixteen are in it: the sixteenth is admitted and the seventeenth is not |
| SfuModel.ReapFindsNothing | server-rust/src/signaling/sfu_relay.rs:123-206 | so reaping, taken to work on the handlers' store, removes nothing, and a refused join leaves the store as it was |
| SfuViews.ViewsAreTrue | server-rust/src/signaling/sfu_relay.rs:219-390 | each participant's view, the others at its latest join replayed with the notifications queued for it since, is exactly the true set of others |
| SfuViews.MembersHaveJoined | server-rust/src/signaling/sfu_relay.rs:193-225 | every participant has a latest join to start from |
| SfuViews.ReadyIffAnswered | server-rust/src/signaling/sfu_relay.rs:285-320 | a participant counts as media-ready exactly when it has answered since its latest join |
| SfuServer.SfuRoomStore.OnJoin | server-rust/src/signaling/sfu_relay.rs:175-271 | whoever finds sixteen or more in the room changes nothing and is told the room is full; whoever finds fewer is in it, not ready, the others have each been told, and the joiner is told how many they are |
| SfuServer.SfuRoomStore.JoinUnderLock | server-rust/src/signaling/sfu_relay.rs:193-245 | the part under the lock: refused if and only if the room holds sixteen or more; once the first look has passed, the second cannot fail |
| SfuServer.SfuRoomStore.ParticipantsKnowTheRoom | server-rust/src/signaling/sfu_relay.rs:219-390 | in a store in use, what a participant has heard since its latest join tells it exactly who else is there |
| SfuServer.SfuRoomStore.OnAnswer | server-rust/src/signaling/sfu_relay.rs:285-320 | a participant becomes ready, and nothing else changes |
| SfuServer.SfuRoomStore.ReapEmptyRooms | server-rust/src/signaling/sfu_relay.rs:123-127 | the retaining loop, run on a store in use, removes nothing |
| SfuServer.SfuRoomStore.OnLeave | server-rust/src/signaling/sfu_relay.rs:359-409 | the participant goes, each of the rest is told and nobody else, and an emptied room goes |
| SfuServer.SfuRoomStore.NotifyAll | server-rust/src/signaling/sfu_relay.rs:231-243 | the loop queues one copy for each of the users and nothing else |
| SfuServer.PostAllReaches | server-rust/src/signaling/sfu_relay.rs:231-243 | each of the users has the copy behind what it had, the others what they had |
| HubRouting.ExactlyOnce | server-rust/src/signaling/hub.rs:71-113 | for a user registered on one instance throughout and any sender: what reached its connection together with what is pending is, counted, what was there and everything sent since: nothing is lost or doubled |
| HubRouting.StepKeepsOrderIff | server-rust/src/signaling/hub.rs:71-113 | for every event: it extends that line by what it sends, at its end, if and only if it is not the user's own instance sending past a different message it published before and has not handled |
| HubRouting.InOrderExactlyOnce | server-rust/src/signaling/hub.rs:71-113 | so messages of every other instance arrive in order, and those of the user's own if it overtakes nothing |
| HubRouting.InOrderWhenNothingIsOwed | server-rust/src/signaling/hub.rs:71-113 | with no proviso on what is sent: if the user's own instance had nothing of its own pending for the user at the start, messages of every instance, its own included, are in order all along |
| HubRouting.AlwaysInOrderIff | server-rust/src/signaling/hub.rs:71-113 | for every run: those of the user's own instance are in order all along if and only if it overtakes nothing |
| HubRouting.EndsInOrderIff | server-rust/src/signaling/hub.rs:71-113 | and disorder is final: if it sends nothing equal to what was pending at the start, they end in order if and only if it never sent one while any was pending |
| HubRouting.DrainedMeansDelivered | server-rust/src/signaling/hub.rs:93-113 | once that instance has handled the channel, the connection holds what it held, what was pending, and everything sent since, in order |
| HubRouting.NowhereElse | server-rust/src/signaling/hub.rs:71-113 | no other connection, on any instance, is handed a message for that user |
| HubRouting.LocalOvertakesPublished | server-rust/src/signaling/hub.rs:71-90 | a concrete run in which a message sent directly overtakes one published before |
| HubServer.SignalingHub.OnRegister | server-rust/src/signaling/hub.rs:49-57 | an instance that is part of a cluster which has done anything, and now this: `session-replaced` is queued on the old connection and on no other, then the new one takes its place; still a part |
| HubServer.SignalingHub.SendTo | server-rust/src/signaling/hub.rs:71-90 | the same for a send: queued on the local connection, or published, never both |
| HubServer.SignalingHub.OnMessage | server-rust/src/signaling/hub.rs:97-110 | the same for one turn of the subscriber loop: one message is taken, and queued if its user is connected here |
| HubServer.SignalingHub.StaysPart | server-rust/src/signaling/hub.rs:71-110 | what another instance does leaves this one a part of the cluster |
| HubServer.SignalingHub.ResidentsGetEverything | server-rust/src/signaling/hub.rs:71-113 | in a cluster in use: once the instance of a settled user has handled the channel, the user's connection holds all that any instance sent since, in order, from its own instance if that overtook nothing |
| HubServer.SignalingHub.NothingOwedEverythingInOrder | server-rust/src/signaling/hub.rs:71-113 | the same from every instance with no proviso on what was sent, if the user's own owed nothing when the user settled there |
| HexCodec.DecodeEncode | lib/services/signaling_crypto.dart:19-29 | decoding undoes encoding for all bytes |
| HexCodec.EncodeDecodeIff | lib/services/signaling_crypto.dart:19-29 | encoding what was decoded gives the text in lower case exactly when the text is hex digits throughout |
| HexCodec.DecodesIff | lib/services/signaling_crypto.dart:19-26 | what is accepted: an even number of characters every pair of which parses, one byte a pair |
| HexCodec.ParsesPairIff | lib/services/signaling_crypto.dart:19-26 | a pair parses if and only if it is two hex digits of either case, a digit after a sign or a space, or a digit before a space |
| HexCodec.HexDecode | lib/services/signaling_crypto.dart:19-26 | the loop over a buffer computes that decoding, errors included |
| SignalingCrypto.UnpackPacked | lib/services/signaling_crypto.dart:47-88 | the first colon and the last sixteen bytes fall where the writer put them |
| SignalingCrypto.OpenEncrypted | lib/services/signaling_crypto.dart:43-89 | given a cipher that opens what it sealed, decryption undoes encryption for every text and nonce |
| SignalingCrypto.Decrypt | lib/services/signaling_crypto.dart:43-72 | what cannot be opened, for whatever reason, and all text without a colon, is returned unchanged |
| SignalingCrypto.UnpacksIff | lib/services/signaling_crypto.dart:44-57 | a text is taken for an encrypted one exactly when it has a colon, pairs of characters that parse as bytes before and after it, signs and spaces included where the parser takes them, and at least sixteen pairs after it |
| SignalingCrypto.OpenedHasForm | lib/services/signaling_crypto.dart:44-57 | only such a text is ever opened |

## Left out

- SdpIdempotence.TransformTwiceIsOnceIff: only for tidy texts, in which attribute text starts a line and no line end is stray.
- SdpIdempotence.TransformKeepsRtpTableIff: only for tidy texts.
- SdpResult.TransformedLine: only for tidy texts in which no Opus line is overwritten; `SdpResult.OverwrittenLines` is about the others.
- SdpResult.OverwrittenLines: only for tidy texts.
- SdpResult.OpusParametersAre: only for tidy texts in which no Opus line is overwritten.
- SdpAppend.OpusLineSurvivesIff: only for tidy texts.
- SdpBridge.FirstOpusIsOpusOf: only for tidy texts.
- SdpBridge.ReplaceFmtpByLine: only for tidy texts.
- SdpTransform.TransformSdpIdempotent: its condition, that no Opus line is overwritten, suffices and is not necessary; `SdpIdempotence.TransformTwiceIsOnceIff` has the exact one.
- SdpTransform.TransformKeepsRtpTable: the same condition, and not necessary either; `SdpIdempotence.TransformKeepsRtpTableIff` has the exact one.
- PreferCodec.PreferIdempotent: only when the m=video line carries no rtpmap text of its own, which no SDP grammar allows.
- CallMatching.DisciplinedCallsAreHeld: assumes well-behaved clients; for all others `CallOrphans.EventKeepsHeldIff` says of every event, and `CallOrphans.HeldThroughoutIff` of every run, exactly when a live call stays held.
- CallServer.SignalingServer.OnClose: does not claim that the newest session of a user stays registered, because a replaced socket's close removes the newer registration.
- ContactsServer.ContactsDb.ListContacts: does not model the order by display name, nor the online flag.
- ContactsServer.ContactsDb.PendingRequests: does not model the order by creation time.
- ContactsServer.ContactsDb.OnCall: does not model the setting of the busy keys.
- ContactCache.ListsStayFresh: leaves out the list of sent requests, which blocking a user does not update, and failures of the network.
- CallServer.SignalingServer.OnAuth: does not model a socket that authenticates again as another user, nor user ids of another length than a UUID's.
- SfuModel.ReapFindsNothing: the reaper belongs to a registry type that the handlers do not share; it is modelled on the handlers' store.
- Parsing of JSON messages, missing-field errors of the group-room handlers, and the sfu-ice message, which has no effect.
- The authentication await of the Node server, the create-room database write and its failure, heartbeat messages, and the last-seen updates.
- Password checks, token signatures, encryption and hashing themselves.
- Busy keys of the Rust server, presence, rate limits, metrics and logging.
- User search, handle lookup, registration checks and ICE server configuration: single-branch checks.
- The debug-only SDP checks at the end of `transformSdp`.
- `webrtc_service.dart`, the rest of `video_call_service.dart`, `api_service.dart` and `signaling_service.dart`: media handles, reconnection and the refresh queue of the client.
- `quic_noise_service.dart` and `livekit_service.dart`, which are skeletons.
