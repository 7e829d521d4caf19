# A verified model of Jolt's replication core

Jolt lets one identity write from several devices. Each device keeps a signed,
hash-chained log; the identity's root key keeps a chain of device
authorizations; and any node that holds the logs merges them into one view of
the identity's paths. Nodes bring each other up to date with paged deltas. On
top of that a node serves change streams to apps, grants apps capabilities, and
keeps fetched content and remote snapshots within quotas.

This project models that core in Dafny and proves what it is for:

- **The merge** (`DeviceWriterMerge`, `MergeCausality`, `MergeOrder`,
  `MergeRevocation`, `MergeGrowth`, `MergeMeaning`): the imperative pass over the logs computes
  a declarative merge; the heads of a path are exactly the maximal writes of
  the transitive supersession order; the result does not depend on the order of
  the logs; revoking a device is the same as truncating its log; nothing
  superseded comes back; a write that observed every head resolves its path;
  and a merged state says, in the fields of the logs and the authority alone,
  who wins, who conflicts, what was appended and what was rejected.
- **Delta sync** (`DeltaSync`, `DeltaPaging`, `DeltaServing`, `DeltaSession`,
  `DeltaRuns`, `DeltaMeaning`, `DeltaMessages`, `Requester`, `SyncConvergence`,
  `SyncOutcome`, `SyncPages`, `RequesterMeaning`): pages are within their
  limits in exact CBOR bytes and full when they leave something behind; over a whole session every missing entry is
  delivered once and in order, while the provider's logs may grow; and the
  requester ends with the state the provider's own logs merge to; over every
  run of pages the authority never goes back and no log gets shorter.
- **Signed bytes** (`Encoders`, `CanonicalEncodings`, `HashChains`): the three
  canonical encodings have decoders that undo them, so they are injective and
  never coincide; equal head hashes mean equal histories.
- **Authority and update logs** (`IdentityAuthority`, `UpdateLog`).
- **Change streams** (`ChangeStreams`, `ChangeJournal`, `ChangeStreamRuns`,
  `ChangeStreamClients`, `ChangeStreamEnds`, `ChangeStreamMeaning`): over every run, a client that
  folds the events it is given holds exactly what the server held at its
  cursor.
- **App sessions** (`AppCapabilities`, `CapabilityTexts`, `AppSessions`,
  `AppSessionRuns`, `AppSessionMeaning`): a text is read as a capability exactly
  when it spells it; containment of capabilities is inclusion of what they
  allow; a session that is over stays over.
- **Quotas and fetches** (`ContentCache`, `RemoteSnapshots`,
  `RemoteSnapshotFailures`, `FetchManager`, `FetchRuns`, `FetchOutcomes`):
  eviction takes the oldest and no more than it must; no caller of a fetch is
  lost or answered twice.

Conventions. Text that is signed, hashed or compared byte by byte is a sequence
of UTF-8 bytes (`Str`); elsewhere it is a `string`. `Env` holds the digest, the
two signature checks and the text of an identity as arbitrary functions. Where hashes have to identify bodies the
lemmas ask for `CollisionFree` (no two bodies in play share a digest) and where
they have to be well founded for `Causal` (an entry only refers to entries made
before it, for some ranking of hashes). Object state is a class whose methods
are tied to functions or relations on plain values, and the laws are proved of
those.

Where the code does not keep a promise, the project says when it does:

- The `expect` in the merge fires only when hash references are not well
  founded: `MergeCausality.SelfReferencePanics` gives the family,
  `MergeCausality.PanicsExactlyWhen` the exact condition, and
  `MergeCausality.MergeNeverPanics` rules it out for entries that refer
  backwards. The family needs an entry that contains its own digest, and no
  such entry is known for the real digest.
- A change-stream cursor does not name the stream it came from.
  `ChangeStreamEnds.OutlivingDiverges` shows a client that outlives an evicted
  stream ending with a record the server lacks;
  `ChangeStreamClients.FollowLandsIff` says exactly when a poll lands, and
  `ChangeStreamClients.AttentiveStaysInStep` what a client can do about it.
- When evicting a remote snapshot meets a file it cannot remove, the recorded
  total keeps the lost entry's size (`RemoteSnapshotFailures.DriftsIff` says
  exactly when), and a snapshot that fits can then be refused
  (`RemoteSnapshotFailures.RefusedIffExcess` says exactly when, and
  `RemoteSnapshotFailures.StrandedThenRefused` gives a run).
- A second `start_fetch` for an active id drops the first caller unanswered;
  `FetchRuns.DroppedExactly` counts this and nothing else.

## Model

| member | source | states |
|---|---|---|
| DeviceWriterLog.VerifyDeviceLogShape | crates/jolt-core/src/device_writer_log.rs:552-591 | the loop reports the first entry that breaks the shape of a device log, and nothing exactly when every entry is in order |
| DeviceWriterLog.ShapeErrorMeaning | crates/jolt-core/src/device_writer_log.rs:552-591 | no error among the first n entries if and only if each of them is in order by itself |
| DeviceWriterLog.ShapeFacts | crates/jolt-core/src/device_writer_log.rs:552-591 | in a well-shaped log entry i has sequence i, the log's identity and device, and the hash of its predecessor |
| DeviceWriterLog.ShapePrefix | crates/jolt-core/src/device_writer_log.rs:552-591 | every prefix of a well-shaped log is well shaped |
| DeviceWriterLog.ShapeMeans | crates/jolt-core/src/device_writer_log.rs:552-591 | a log is well shaped if and only if every entry i has a fitting body, the log's identity and device, sequence i and the digest of entry i - 1 |
| DeviceWriterLog.ShapeErrorMeans | crates/jolt-core/src/device_writer_log.rs:552-591 | an error names a fault of an entry whose predecessors are all in order |
| DeviceWriterLog.AscendingMeans | crates/jolt-core/src/device_writer_log.rs:620-626 | comparing neighbours accepts exactly the lists in which every head precedes every later one at the first differing byte |
| Text.WhitespaceMeans | crates/jolt-core/src/device_writer_log.rs:633-650 | the scan finds whitespace exactly where the UTF-8 of one of Unicode's White_Space characters stands, and its length |
| Text.BlankMeans | crates/jolt-core/src/device_writer_log.rs:633-650 | a string is blank if and only if it spells whitespace characters only |
| Text.SegmentsMean | crates/jolt-core/src/identity_address.rs:134-137 | the segments of a path are exactly its parts between slashes |
| Text.AddressableMeans | crates/jolt-core/src/identity_address.rs:117-144 | a path is addressable if and only if it is the root, or has no query, fragment or whitespace and no part that is a dot or two dots |
| DeviceWriterLog.CanonicalHeadsAreCanonical | crates/jolt-core/src/device_writer_log.rs:263-326 | sorted and deduplicated observed heads are strictly ascending and have the same members, so signed bodies pass the canonical-heads check |
| DeviceWriterLog.NextKeepsShape | crates/jolt-core/src/device_writer_log.rs:263-326 | whatever genesis or append signs extends a well-shaped log to a well-shaped log, and carries the given operation, time, device and exactly the given heads |
| IdentityAuthority.CheckRecord | crates/jolt-core/src/identity_authority.rs:361-413 | the checks on one record, in the order the source makes them; none complains exactly when the body is well formed, names the chain's identity and root, its place and the previous hash, and carries a 64-byte signature that verifies strictly under a valid root key |
| IdentityAuthority.VerifyIdentityAuthorityChain | crates/jolt-core/src/identity_authority.rs:361-413 | the loop returns the devices left by the whole chain or its first error, and accepts exactly the non-empty chains whose every record is linked, root-signed and revokes only what was authorized before |
| IdentityAuthority.StandingIsLastOperation | crates/jolt-core/src/identity_authority.rs:415-468 | a known device has the keys and capabilities of its last authorization and the standing, cut-off and reason of the last operation on it |
| IdentityAuthority.ChainFacts | crates/jolt-core/src/identity_authority.rs:361-413 | in a verified chain record i has sequence i, the chain's root key and identity, the hash of its predecessor, and a 64-byte signature that verifies strictly under the valid root key |
| IdentityAuthority.ChainVerifiesIff | crates/jolt-core/src/identity_authority.rs:361-413 | a chain verifies if and only if it is not empty and every record is linked, root-signed and revokes only a device authorized before; it then knows exactly the authorized devices and stands at its last sequence; an error is a fault of the first record that is not |
| IdentityAuthority.DevicesMean | crates/jolt-core/src/identity_authority.rs:361-468 | the same for every prefix of a chain |
| IdentityAuthority.AppendApplies | crates/jolt-core/src/identity_authority.rs:220-240 | a root-signed record appended to a verified chain verifies exactly when its operation applies, and then has that operation's effect |
| DeviceWriterMerge.Admit | crates/jolt-core/src/device_writer_log.rs:420-480 | admitting one accepted entry keeps the candidate, superseded, previous-write and append tables equal to their declarative values |
| DeviceWriterMerge.ReadLog | crates/jolt-core/src/device_writer_log.rs:385-482 | the pass over one log adds exactly its accepted entries to the tables and its rejections to the list, or stops at its first error |
| DeviceWriterMerge.Resolve | crates/jolt-core/src/device_writer_log.rs:488-502 | heads, winners and conflicts of every path, or the panic when a path has no head; every head ranks up to its winner by sequence, device id and hash, and conflicts ascend in the same fields |
| DeviceWriterMerge.SortAppends | crates/jolt-core/src/device_writer_log.rs:484-486 | append records of each path sorted by their order |
| DeviceWriterMerge.MergeDeviceWriterLogs | crates/jolt-core/src/device_writer_log.rs:372-526 | the whole imperative merge computes the declarative outcome: error, panic or merged state |
| DeviceWriterMerge.EntryKeyMeans | crates/jolt-core/src/device_writer_log.rs:684-693 | the entry order compares sequences, then device ids, then hashes, strings at their first differing byte |
| DeviceWriterMerge.AppendKeyMeans | crates/jolt-core/src/device_writer_log.rs:695-713 | the append order compares times, then sequences, device ids and hashes |
| DeviceWriterMerge.RejectionKeyMeans | crates/jolt-core/src/device_writer_log.rs:504-517 | the rejection order compares identities, device ids, sequences and hashes |
| Ordering.LexMeans | crates/jolt-core/src/device_writer_log.rs:684-693 | a string comes first if and only if it ends, or has the smaller byte, where the two first differ |
| MergeMeaning.HeadsInFields | crates/jolt-core/src/device_writer_log.rs:420-494 | the heads of a path show exactly the admitted writes that no admitted write observed and none follows in its own log |
| MergeMeaning.PathMeans | crates/jolt-core/src/device_writer_log.rs:488-502 | the winner of a path shows a head that every head ranks up to, the conflicts show heads in ascending order, and no head is missing |
| MergeMeaning.OthersRankBelow | crates/jolt-core/src/device_writer_log.rs:684-693 | without digest collisions every head the winner does not show ranks strictly below it |
| MergeMeaning.AppendsMean | crates/jolt-core/src/device_writer_log.rs:447-486 | the append records of a path show exactly the admitted appends to it |
| MergeMeaning.RejectionSaid | crates/jolt-core/src/device_writer_log.rs:593-610 | the rejected entries show exactly the entries not admitted, with content id and reason |
| MergeMeaning.MergeSays | crates/jolt-core/src/device_writer_log.rs:372-526 | a merged state says of every path exactly what the logs and the authority hold: winner, conflicts, appends and rejections, each in its order |
| MergeMeaning.FailureMeans | crates/jolt-core/src/device_writer_log.rs:372-418 | a merge fails if and only if some log is not one device's chain signed where the device is known, and the error is a fault of the first such log |
| MergeCausality.SupersededMeans | crates/jolt-core/src/device_writer_log.rs:426-468 | the superseded set of a path is exactly the hashes some accepted write observed or directly followed |
| MergeCausality.SupersessionAscends | crates/jolt-core/src/device_writer_log.rs:426-468 | supersession only runs from earlier to later entries |
| MergeCausality.HeadsAreMaximal | crates/jolt-core/src/device_writer_log.rs:426-494 | an accepted write is a head if and only if no accepted write lies above it in the transitive supersession order |
| MergeCausality.EveryWriteReachesAHead | crates/jolt-core/src/device_writer_log.rs:426-494 | above every accepted write there is a head, reached in finitely many supersession steps |
| MergeCausality.MergeNeverPanics | crates/jolt-core/src/device_writer_log.rs:490-502 | when entries only refer to earlier ones the expect on the head list never fires |
| MergeCausality.PanicsExactlyWhen | crates/jolt-core/src/device_writer_log.rs:490-502 | the expect fires if and only if the logs verify and some written path has all its accepted writes superseded |
| MergeCausality.SelfReferencePanics | crates/jolt-core/src/device_writer_log.rs:490-502 | an accepted write that observes its own hash makes the merge panic |
| MergeCausality.WinnerAndConflicts | crates/jolt-core/src/device_writer_log.rs:494-502 | every head has a lower sequence than the winner, or the same and a preceding device id, or both the same and a preceding or equal hash; the other heads, and only they, are the conflicts, ascending in these fields |
| MergeOrder.SameErrors | crates/jolt-core/src/device_writer_log.rs:372-418 | permuted logs fail or pass verification alike |
| MergeOrder.OrderIndependent | crates/jolt-core/src/device_writer_log.rs:372-526 | for permuted logs the merge succeeds alike, with identical winners, conflicts, append order and rejections |
| Ordering.SortIsCanonical | crates/jolt-core/src/device_writer_log.rs:684-713 | sorting by a key that determines its elements gives one result for every arrangement of the same elements |
| Ordering.SortLastIsGreatest | crates/jolt-core/src/device_writer_log.rs:684-693 | the last of a sorted list is greatest in the lexicographic key order |
| MergeRevocation.RevokedLog | crates/jolt-core/src/device_writer_log.rs:394-418 | what a revoked device's log still contributes is its prefix up to the cut-off, and the rest is rejected as revoked |
| MergeRevocation.RevocationIsTruncation | crates/jolt-core/src/device_writer_log.rs:394-526 | revoking at a cut-off gives the winners, conflicts and appends of truncating the log there, and the rejections gain exactly the cut tail |
| MergeRevocation.AppendedRevocationRevokes | crates/jolt-core/src/identity_authority.rs:220-240 | a signed revocation of an active device appended to a verified chain verifies and revokes exactly that device at that cut-off |
| MergeGrowth.NothingResurfaces | crates/jolt-core/src/device_writer_log.rs:420-494 | a superseded write stays superseded when logs grow or are added |
| MergeGrowth.AppendsNeverLost | crates/jolt-core/src/device_writer_log.rs:447-459 | every append record stays, as often, when logs grow or are added |
| MergeGrowth.ObserverIsOnlyHead | crates/jolt-core/src/device_writer_log.rs:426-494 | an accepted write that observed every head of its path becomes its only head |
| MergeGrowth.ObservingWriteResolves | crates/jolt-core/src/device_writer_log.rs:302-326 | appending such a write through the constructors leaves no conflict at its path and changes no other path and no append record |
| Encoders.ByteBuffer.AppendHeads | crates/jolt-core/src/device_writer_log.rs:360-366 | the optional observed-heads tail is written only when there are heads, count first, hash after hash |
| Encoders.ByteBuffer.AppendAuthorization | crates/jolt-core/src/identity_authority.rs:291-333 | the operation encoder, loops over keys and capabilities included, writes the operation's bytes |
| Encoders.ByteBuffer.AppendRelay | crates/jolt-core/src/update_log.rs:236-261 | the relay-hint encoder, loops over addresses and capabilities included, writes the hint's bytes |
| Encoders.EncodeWriter | crates/jolt-core/src/device_writer_log.rs:343-370 | the device-writer encoder fills the buffer with the canonical bytes |
| Encoders.EncodeAuthority | crates/jolt-core/src/identity_authority.rs:268-289 | the authority encoder fills the buffer with the canonical bytes |
| Encoders.EncodeUpdate | crates/jolt-core/src/update_log.rs:181-234 | the update-log encoder fills the buffer with the canonical bytes |
| CanonicalEncodings.WriterRoundTrip | crates/jolt-core/src/device_writer_log.rs:219-240 | a decoder undoes the device-writer encoding, observed heads included |
| CanonicalEncodings.AuthorityRoundTrip | crates/jolt-core/src/identity_authority.rs:268-344 | a decoder undoes the authority encoding |
| CanonicalEncodings.UpdateRoundTrip | crates/jolt-core/src/update_log.rs:181-261 | a decoder undoes the update-log encoding |
| CanonicalEncodings.WriterInjective | crates/jolt-core/src/device_writer_log.rs:343-370 | equal canonical bytes, equal device-writer bodies |
| CanonicalEncodings.AuthorityInjective | crates/jolt-core/src/identity_authority.rs:268-344 | equal canonical bytes, equal authority bodies |
| CanonicalEncodings.UpdateInjective | crates/jolt-core/src/update_log.rs:181-261 | equal canonical bytes, equal update-log bodies |
| CanonicalEncodings.KindsNeverCoincide | crates/jolt-core/src/update_log.rs:181-200 | bytes of one kind are never the bytes of another |
| HashChains.HashIdentifies | crates/jolt-core/src/device_writer_log.rs:328-341 | without digest collisions equal entry hashes mean equal bodies |
| HashChains.LogsAgree | crates/jolt-core/src/device_writer_log.rs:552-591 | two well-shaped logs that share the hash of entry n share every body up to n |
| HashChains.SameHeadSameHistory | crates/jolt-core/src/update_log.rs:263-297 | two verified update logs with the same head hash have the same length and the same bodies |
| HashChains.SameHashSameAuthority | crates/jolt-core/src/identity_authority.rs:361-413 | two verified authority chains with the same last record hash have the same bodies and establish the same authority |
| UpdateLog.VerifyUpdateLog | crates/jolt-core/src/update_log.rs:263-297 | the loop reports the first bad entry, and nothing exactly when the log is verified |
| UpdateLog.VerifiedFacts | crates/jolt-core/src/update_log.rs:263-297 | entry i of a verified log has sequence i, the log's owner, the hash of its predecessor and a valid signature |
| UpdateLog.VerifiedIff | crates/jolt-core/src/update_log.rs:263-297 | a log verifies if and only if every entry is owner-signed, in place and linked |
| UpdateLog.ErrorMeans | crates/jolt-core/src/update_log.rs:263-297 | an error names a fault of an entry whose predecessors all verify |
| UpdateLog.ResolveLatestRecord | crates/jolt-core/src/update_log.rs:299-340 | the resolved record says, for root, profile, reachability and each path, what the last action on it said |
| UpdateLog.EligibleMeans | crates/jolt-core/src/update_log.rs:382-396 | a log is eligible for an identity if and only if it verifies and its owner key is that identity's |
| UpdateLog.SelectsLongestVerified | crates/jolt-core/src/update_log.rs:398-415 | newest-selection returns an eligible candidate of maximal length, or nothing exactly when none is eligible |
| UpdateLog.SelectsLast | crates/jolt-core/src/update_log.rs:398-415 | of equally long eligible candidates the last is chosen |
| Cbor.HeadSize | crates/jolt-network/src/protocol.rs:26-34 | the array-header length formula is the size of the head of section 3 of RFC 8949 |
| Cbor.ItemRoundTrip | crates/jolt-network/src/protocol.rs:336-360 | every data item is read back from its encoding, whatever follows it |
| DeltaMessages.CursorReads | crates/jolt-network/src/protocol.rs:77-82 | a cursor is read back from the item it is written as |
| DeltaMessages.ResponseReads | crates/jolt-network/src/protocol.rs:136-148 | every part of a response is read back by name from its item; empty heads and a missing continuation are not written |
| DeltaPaging.EntryCostIsExact | crates/jolt-network/src/protocol.rs:362-398 | the incremental cost of an entry is exactly how much the encoded logs grow, outer and inner headers included |
| DeltaPaging.SizeOfFrame | crates/jolt-network/src/protocol.rs:336-360 | the size of a response is its envelope's plus its logs' |
| DeltaPaging.FillPage | crates/jolt-network/src/protocol.rs:362-398 | the nested filling loops stop where the declarative fill stops, with the true byte count |
| DeltaPaging.SmallerContinuation | crates/jolt-network/src/protocol.rs:336-360 | the reserved worst-case continuation is at least as large as the one sent |
| DeltaServing.FillWithin | crates/jolt-network/src/protocol.rs:362-398 | whatever the fill takes fits the entry and byte limits |
| DeltaServing.FillStopsForCause | crates/jolt-network/src/protocol.rs:362-398 | the fill stops only at the end or before an entry that would not fit |
| DeltaServing.PageWithinLimits | crates/jolt-network/src/protocol.rs:336-432 | a delta page that carries entries has at most the allowed entries and at most the allowed bytes of CBOR |
| DeltaServing.ReadCursors | crates/jolt-network/src/protocol.rs:253-266 | the cursors by device, refused exactly when a device is named twice |
| DeltaServing.CheckCursors | crates/jolt-network/src/protocol.rs:268-302 | cursors pass if and only if each names an entry of its device's log by sequence and hash |
| DeltaServing.Advance | crates/jolt-network/src/protocol.rs:408-420 | the continuation's cursors are moved past what was delivered |
| DeltaServing.ListCursors | crates/jolt-network/src/protocol.rs:421-423 | the cursors of a continuation, sorted by device |
| DeltaServing.ForSyncRequest | crates/jolt-network/src/protocol.rs:234-433 | the whole imperative responder computes the declarative response |
| DeltaMeaning.RequiredMeans | crates/jolt-network/src/protocol.rs:151-171 | the version a history needs is 3 if and only if some entry observed heads, 2 if and only if none did and some entry is a tombstone, and 1 otherwise |
| DeltaMeaning.AnswerFitsRequester | crates/jolt-network/src/protocol.rs:151-218 | an answer names the version the history needs; it carries entries that observed heads only to a requester of version 3, tombstones only from version 2, and the authority records exactly when the version is understood |
| DeltaMeaning.AcceptedMeans | crates/jolt-network/src/protocol.rs:253-302 | cursors are accepted if and only if they name entries of distinct devices by place and digest |
| DeltaMeaning.DeltaAnswer | crates/jolt-network/src/protocol.rs:304-432 | a delta is answered to accepted cursors only, lists the end of every log, and lists heads, logs and continuation in device order |
| DeltaMeaning.DeltaIff | crates/jolt-network/src/protocol.rs:234-407 | a delta is answered if and only if both sides speak it, the version is understood, the cursors name entries and the first missing entry, if any, fits a page |
| DeltaMeaning.FrameMeans | crates/jolt-network/src/protocol.rs:336-360 | a page reserves one greatest cursor for every device of the request or the provider |
| DeltaMeaning.PageIsFull | crates/jolt-network/src/protocol.rs:362-432 | a page that leaves something behind would break a limit with the next missing entry |
| DeltaSession.PageIsNextSlice | crates/jolt-network/src/protocol.rs:304-432 | a delta page carries for every device the next stretch after its cursor; all that is missing if it has no continuation, at least one entry if it has |
| DeltaSession.CursorListRoundTrip | crates/jolt-network/src/protocol.rs:408-424 | listing cursors and reading them back gives the same cursors |
| DeltaSession.ContinuationAccepted | crates/jolt-network/src/protocol.rs:253-302 | continuation cursors are accepted, also by a provider that has grown in between |
| DeltaRuns.SessionDelivers | crates/jolt-network/src/protocol.rs:234-433 | over any session the pages joined are, per device, exactly the entries after the first cursor, once and in order, to the end when no continuation follows |
| DeltaRuns.FallbackHasCause | crates/jolt-network/src/protocol.rs:400-407 | with accepted cursors a full response means a newer operation version is needed or not even the next entry fits |
| DeltaRuns.FollowUpAccepted | crates/jolt-network/src/protocol.rs:253-302 | within a session no follow-up request is refused for its cursors |
| DeltaRuns.PageShrinksRest | crates/jolt-network/src/protocol.rs:362-432 | a page with a continuation leaves strictly fewer undelivered entries |
| DeltaRuns.SessionEnds | crates/jolt-network/src/protocol.rs:362-432 | against logs that stand still a session has at most one page more than there are entries to deliver |
| Requester.AccumulateLogs | crates/jolt-network/src/node/resolution.rs:1331-1443 | the loop that appends delivered logs to the held ones, or stops at the first that does not continue |
| Requester.CheckHeads | crates/jolt-network/src/node/resolution.rs:1331-1443 | the completeness check passes if and only if the logs end exactly at the advertised heads |
| Requester.MergeVerifiedState | crates/jolt-network/src/node/resolution.rs:1331-1443 | the newer authority chain, logs accumulated, heads checked, everything re-merged; or the first error |
| RequesterMeaning.MergeUses | crates/jolt-network/src/node/resolution.rs:1331-1443 | a merged page keeps that chain, and its state says what the accumulated logs hold under the authority that chain establishes; a completed delta ends exactly at the advertised heads; an invalid chain is refused |
| RequesterMeaning.AuthorityAdvances | crates/jolt-network/src/node/resolution.rs:1348-1363 | a merge never goes back to an older chain |
| RequesterMeaning.AuthorityNeverDecreases | crates/jolt-network/src/node/resolution.rs:1348-1443 | over every run of pages the authority sequence never decreases |
| RequesterMeaning.NewerMeans | crates/jolt-network/src/node/resolution.rs:1308-1330 | a log replaces another if and only if it is longer, or as long and ends later by time, sequence, device id and hash |
| RequesterMeaning.LogsNeverShrink | crates/jolt-network/src/node/resolution.rs:1365-1443 | over every run of pages no held log gets shorter and every kept log is clean under the kept chain |
| RequesterMeaning.ReachesMeans | crates/jolt-network/src/node/resolution.rs:1404-1433 | the completeness check passes if and only if there is one head per log, at its last entry |
| RequesterMeaning.ReachedIsCaught | crates/jolt-network/src/node/resolution.rs:1404-1433 | without digest collisions the completeness check passes if and only if the requester holds the provider's logs, entry for entry |
| SyncConvergence.SameBodiesMergeAlike | crates/jolt-core/src/device_writer_log.rs:372-526 | logs with the same bodies merge to the same state whatever their signatures |
| SyncConvergence.AcceptedMeansBehind | crates/jolt-network/src/protocol.rs:268-302 | if the provider accepts the requester's last-entry cursors the two agree on every body the requester has |
| SyncConvergence.PageAbsorbed | crates/jolt-network/src/node/resolution.rs:1331-1443 | a page for a requester that is behind is accepted and leaves it behind by exactly that page less |
| SyncOutcome.SessionInStep | crates/jolt-network/src/node/resolution.rs:1331-1443 | after every page of a session the requester holds what it had plus what was delivered |
| SyncOutcome.SessionCatchesUp | crates/jolt-network/src/protocol.rs:234-433 | at the end of a session the requester has every body the provider has |
| SyncOutcome.CaughtReaches | crates/jolt-network/src/node/resolution.rs:1331-1443 | a requester that has caught up passes the completeness check |
| SyncOutcome.CaughtMergesAlike | crates/jolt-core/src/device_writer_log.rs:372-526 | and its logs, listed in any order, merge to the provider's state |
| SyncOutcome.AccumulationConverges | crates/jolt-network/src/node/resolution.rs:1365-1430 | over a session every page accumulates, the result passes the completeness check and merges, listed in any order, to what the provider's logs merge to |
| SyncPages.BehindMerges | crates/jolt-core/src/device_writer_log.rs:372-526 | whatever part of the provider's logs a requester holds verifies and merges |
| SyncPages.EveryPageMerges | crates/jolt-network/src/node/resolution.rs:1331-1443 | every page of a session is accepted: authority choice, contiguity, completeness check and re-merge, each from the state the page before left |
| SyncPages.SyncConverges | crates/jolt-network/src/node/resolution.rs:1445-1620 | the whole protocol: no page of a session is refused, and the state the last page leaves is the one the provider's logs merge to under the provider's chain |
| ChangeStreams.CursorRoundTrip | crates/jolt-server/src/data_change_streams.rs:452-461 | an issued cursor parses back to its sequence whatever the generation's text |
| ChangeStreamMeaning.CursorReadsIff | crates/jolt-server/src/data_change_streams.rs:452-461 | a cursor is read if and only if it is this server's generation, a colon and a number |
| ChangeStreamMeaning.NumberReadsIff | crates/jolt-server/src/data_change_streams.rs:452-461 | a number is read exactly from its digits, with or without a plus sign, below 2^64 |
| ChangeStreams.ByPathMeans | crates/jolt-server/src/data_change_streams.rs:326-342 | indexing records keeps for every path the last record of the list, and no other path |
| ChangeStreamMeaning.PublishShows | crates/jolt-server/src/data_change_streams.rs:287-377 | a publication that reaches its stream leaves exactly its records and state there; any other changes nothing; no other stream notices |
| ChangeStreamMeaning.PublishAnnounces | crates/jolt-server/src/data_change_streams.rs:326-377 | a publication adds one event that names exactly the paths that differ, if any, and one for a changed status, in place of the state event the journal ends on |
| ChangeStreamMeaning.PollShows | crates/jolt-server/src/data_change_streams.rs:153-203 | a poll by a stranger or with a foreign cursor changes nothing; the first opens the stream with exactly what it reads; any other only notes the time |
| ChangeStreamMeaning.JournalsStayTidy | crates/jolt-server/src/data_change_streams.rs:358-450 | over every run journals stay within capacity and no state event follows another |
| ChangeStreams.DataChangeStreams.PushEvent | crates/jolt-server/src/data_change_streams.rs:441-450 | the next sequence, and the last entries of the journal up to its capacity |
| ChangeStreams.DataChangeStreams.Next | crates/jolt-server/src/data_change_streams.rs:153-228 | one locked turn of a poll: the new registry and the event, or that the poll parks; a stream it opens holds for every path the last record read for it, and no other path |
| ChangeStreams.DataChangeStreams.Publish | crates/jolt-server/src/data_change_streams.rs:287-377 | the new registry after a publication; a publication that reaches its stream leaves there for every path the last record published for it, and no other path |
| ChangeStreams.DataChangeStreams.RevokeSession | crates/jolt-server/src/data_change_streams.rs:400-424 | every stream of the session becomes a tombstone |
| ChangeJournal.RefreshChangedMeans | crates/jolt-server/src/data_change_streams.rs:485-507 | a state event is published if and only if the status, times aside, differs |
| ChangeJournal.ChangesCarry | crates/jolt-server/src/data_change_streams.rs:326-342 | the changed and removed paths carry the old records to the new ones, and are both empty only when nothing changed |
| ChangeJournal.PushState | crates/jolt-server/src/data_change_streams.rs:358-373 | replacing the last state entry keeps the journal replayable from every cursor the old entry served |
| ChangeJournal.PublishKeeps | crates/jolt-server/src/data_change_streams.rs:326-377 | every publication keeps the journal a faithful replay of the stream's history, at any capacity |
| ChangeJournal.AnswerCarries | crates/jolt-server/src/data_change_streams.rs:204-227 | a client holding version c is carried to a later version by what it is given, through dropped entries and lag snapshots, and waits if and only if c is the latest |
| ChangeStreamClients.PollLandsIff | crates/jolt-server/src/data_change_streams.rs:204-227 | whatever view a client polls with, the answer takes it to the version its cursor names if and only if it is a snapshot or the client agreed with the server's version at its own cursor on everything the delta leaves alone |
| ChangeStreamClients.FollowLandsIff | crates/jolt-server/src/data_change_streams.rs:153-228 | the same of any client's poll in any run, also of one that outlived its stream |
| ChangeStreamClients.AlwaysSound | crates/jolt-server/src/data_change_streams.rs:174-182 | in every run active and terminal streams are disjoint, and tombstones only say how a stream ended |
| ChangeStreamRuns.ClientsStayInStep | crates/jolt-server/src/data_change_streams.rs:153-483 | in every run every client of the running stream holds exactly the records and status of its cursor |
| ChangeStreamRuns.ParkedIsCurrent | crates/jolt-server/src/data_change_streams.rs:204-227 | a poll parks only when the client already holds what the server holds |
| ChangeStreamClients.AttentiveStaysInStep | crates/jolt-server/src/data_change_streams.rs:473-483 | a client that, whenever idle streams are swept, is waiting or polled within the timeout keeps its stream, unless someone ends it, and holds exactly what the stream held at its cursor |
| ChangeStreamEnds.CancelEnds | crates/jolt-server/src/data_change_streams.rs:379-398 | only the owner's cancel ends a stream, and it touches nothing else |
| ChangeStreamEnds.RevokeEnds | crates/jolt-server/src/data_change_streams.rs:400-424 | revocation ends exactly the session's streams and leaves every other stream and tombstone |
| ChangeStreamEnds.EndedStays | crates/jolt-server/src/data_change_streams.rs:296-299 | nothing but expiry lifts a tombstone |
| ChangeStreamEnds.EndedUntilExpiry | crates/jolt-server/src/data_change_streams.rs:163-182 | over any run until expiry the owner is told how the subscription ended, others to start over, and publications have no effect |
| ChangeStreamEnds.FirstBackResyncs | crates/jolt-server/src/data_change_streams.rs:473-483 | the first to poll a swept subscription gets a snapshot that holds, for every path it now reads, the last record for it, and starts a new stream with exactly these records |
| ChangeStreamEnds.StaleFollow | crates/jolt-server/src/data_change_streams.rs:204-227 | the step at which that client takes the delta of a stream it never joined |
| ChangeStreamEnds.RegrowRuns | crates/jolt-server/src/data_change_streams.rs:473-483 | an idle stream is evicted and another for the same subscription grows past an old cursor |
| ChangeStreamEnds.OutlivingDiverges | crates/jolt-server/src/data_change_streams.rs:204-227 | a client that outlived its stream is given a delta, ends at the server's sequence with a record the server lacks, and parks |
| AppCapabilities.ScopeContainsIsInclusion | crates/jolt-server/src/session_store.rs:1055-1070 | one path scope contains another if and only if it allows every path the other allows |
| AppCapabilities.ContainsIsInclusion | crates/jolt-server/src/session_store.rs:959-1025 | one capability contains another if and only if it allows everything the other allows |
| AppCapabilities.ParsedScope | crates/jolt-server/src/session_store.rs:1028-1053 | a parsed scope has one text, and a wildcard covers whole path segments |
| CapabilityTexts.ScopeReadsIff | crates/jolt-server/src/session_store.rs:1028-1053 | a scope is read exactly from its own text, and exactly the plain paths without dot segments and their wildcards are scopes |
| CapabilityTexts.CapabilityReadsIff | crates/jolt-server/src/session_store.rs:926-957 | a text is read as a capability if and only if it spells it |
| CapabilityTexts.NamedIdentityOnly | crates/jolt-server/src/session_store.rs:941-953 | a subscription text that names an identity allows that identity's paths only, and only those in scope |
| CapabilityTexts.TrimEndMeans | crates/jolt-server/src/session_store.rs:941-953 | the suffix is taken off an identity as often as it stands there |
| AppCapabilities.RequestedCovers | crates/jolt-server/src/session_store.rs:1106-1114 | a capability counts as requested if and only if it parses and one requested capability allows everything it allows |
| AppSessions.GrantErrorNone | crates/jolt-server/src/session_store.rs:391-402 | an approval passes if and only if every capability was requested |
| AppSessionMeaning.ApproveRefuses | crates/jolt-server/src/session_store.rs:363-402 | which approvals are refused and why, the first bad capability deciding; a refusal changes nothing |
| AppSessionMeaning.TokenOpensIff | crates/jolt-server/src/session_store.rs:584-621 | a token opens its session if and only if the session is active and its expiry still to come; an inactive session is left alone |
| AppSessionMeaning.ExpiryEnds | crates/jolt-server/src/session_store.rs:584-621 | a token used at or after expiry is refused, and the session is expired and its subscriptions gone |
| AppSessionMeaning.HashesStayInside | crates/jolt-server/src/session_store.rs:66-90 | no operation hands out a token hash |
| AppSessionMeaning.RevokeMeans | crates/jolt-server/src/session_store.rs:507-552 | revoking ends the first record of the session, of the given identity if one is given, and drops exactly its subscriptions |
| AppSessionMeaning.DeviceRevocation | crates/jolt-server/src/session_store.rs:554-582 | revoking a device ends and reports exactly its active sessions |
| AppSessionMeaning.SubscriptionsBounded | crates/jolt-server/src/session_store.rs:623-655 | over every run there are never more subscriptions than the limit and never two alike |
| AppSessionRuns.CreatedApproves | crates/jolt-server/src/session_store.rs:285-317 | an approval of a new request passes if and only if an identity is known and every capability granted was asked for |
| AppSessions.AppSessionStore.ApproveRequest | crates/jolt-server/src/session_store.rs:363-434 | the new state and answer of an approval, or its first error |
| AppSessionRuns.RejectedForGood | crates/jolt-server/src/session_store.rs:483-505 | after any further run a rejected request has no session, token or grant and can be neither approved nor rejected |
| AppSessions.AppSessionStore.RevokeSession | crates/jolt-server/src/session_store.rs:507-552 | the first matching session is revoked and its subscriptions dropped |
| AppSessions.AppSessionStore.RevokeSessionsForDevice | crates/jolt-server/src/session_store.rs:554-582 | every active session of the device is revoked and their subscriptions dropped |
| AppSessions.AppSessionStore.SessionForToken | crates/jolt-server/src/session_store.rs:584-621 | a token opens its session only while active and unexpired; meeting expiry ends it |
| AppSessions.AppSessionStore.RegisterDataSubscription | crates/jolt-server/src/session_store.rs:623-655 | the existing subscription, a new one, or the capacity error |
| AppSessionRuns.AlwaysProper | crates/jolt-server/src/session_store.rs:363-621 | in every reachable state only approved records have a session, a token or grants, and every grant was requested |
| AppSessionRuns.GrantsCovered | crates/jolt-server/src/session_store.rs:363-434 | in every reachable state whatever a grant allows is allowed by one requested capability |
| AppSessionRuns.SubscriptionsCovered | crates/jolt-server/src/session_store.rs:91-100 | in every reachable state a session's grants permit no subscription its request would not |
| AppSessionRuns.SubscriptionsWereRequested | crates/jolt-server/src/routes/app_api.rs:710-726 | in every run whose registrations are checked first, as the route does, every subscription there is was permitted by something its app asked for |
| AppSessionRuns.RunLater | crates/jolt-server/src/session_store.rs:363-621 | over any run records keep their request, grants are fixed once, and a session that left Active never returns |
| AppSessionRuns.TokenStaysSpent | crates/jolt-server/src/session_store.rs:584-621 | the token of a session that is over is refused after any further run |
| AppSessionRuns.ApprovedOpens | crates/jolt-server/src/session_store.rs:382-434 | the issued token opens exactly the approved session, with the approved identity, device and capabilities, until it expires |
| AppSessionRuns.EndingSpends | crates/jolt-server/src/session_store.rs:507-527 | revoking a session spends its token |
| AppSessionRuns.EndingDropsSubscriptions | crates/jolt-server/src/session_store.rs:507-527 | revoking a session drops its subscriptions and no others |
| AppSessionRuns.DeviceEnds | crates/jolt-server/src/session_store.rs:554-582 | a device revocation ends every active session of the device, with its subscriptions, and touches no other record |
| ContentCache.TakenIsShortest | crates/jolt-store/src/store.rs:1009-1022 | the eviction loop takes the shortest prefix that frees enough, or everything |
| ContentCache.FullMeans | crates/jolt-store/src/store.rs:990-1022 | CacheFull if and only if all unpinned entries together are too small, and then nothing changes |
| ContentCache.EvictionMeans | crates/jolt-store/src/store.rs:990-1038 | eviction makes room, keeps every pinned entry and the sum, and takes only entries used no later than every unpinned survivor |
| ContentCache.EvictionIsLeast | crates/jolt-store/src/store.rs:1009-1034 | no shorter prefix of the order would have made room |
| ContentCache.InsertionMeans | crates/jolt-store/src/store.rs:300-361 | a successful new insert ends within the budget with the entry in place, unpinned, sized and dated as it came, its bytes on disk and everything pinned kept |
| ContentCache.CachingMeans | crates/jolt-store/src/store.rs:300-361 | bytes of another id are refused, what is held is left alone, and anything new is refused if and only if the unpinned entries cannot make room |
| ContentCache.FaultsReported | crates/jolt-store/src/store.rs:320-361 | a failed file operation of an insertion is always reported, and before the last index write leaves nothing indexed |
| ContentCache.RunAccounted | crates/jolt-store/src/store.rs:300-361 | in every run the recorded size is the sum of the entries and within the budget |
| ContentCache.RunSealed | crates/jolt-store/src/store.rs:307-319 | in every run whatever is indexed is on disk, whole, and hashes to its id, through evictions, failed writes and files left behind |
| ContentCache.ReadsMatch | crates/jolt-store/src/store.rs:363-401 | in every run a read from the cache gives bytes that hash to the id, and a cached id that can be read is never missed |
| ContentCache.PinnedStays | crates/jolt-store/src/store.rs:923-944 | over any run a pinned entry stays until it is unpinned |
| ContentCache.ContentStore.ListEvictable | crates/jolt-store/src/store.rs:998-1005 | every unpinned id once, in any order |
| ContentCache.ContentStore.SortByAccess | crates/jolt-store/src/store.rs:1007 | the same ids ordered by last use |
| ContentCache.ContentStore.Choose | crates/jolt-store/src/store.rs:1009-1018 | the ids to evict and the bytes they free |
| ContentCache.ContentStore.Remove | crates/jolt-store/src/store.rs:1024-1034 | the listed entries go and the recorded size shrinks by theirs |
| ContentCache.ContentStore.EvictIfNeeded | crates/jolt-store/src/store.rs:990-1038 | the in-place eviction is one the relation allows |
| ContentCache.ContentStore.CacheContent | crates/jolt-store/src/store.rs:300-361 | mismatch, already present, full, failed file, or inserted |
| ContentCache.ContentStore.GetContent | crates/jolt-store/src/store.rs:363-401 | published first, then cache, touching the time of last use |
| ContentCache.ContentStore.Pinning | crates/jolt-store/src/store.rs:923-944 | sets or clears the pin, or reports the id unknown |
| RemoteSnapshots.RefusedIffTooLarge | crates/jolt-store/src/store.rs:1085-1120 | a snapshot is refused as too large if and only if it alone exceeds the quota: the no-entry-to-evict branch is unreachable |
| RemoteSnapshots.SavedWithinQuotas | crates/jolt-store/src/store.rs:1085-1134 | after a save both quotas hold, sizes add up, the snapshot has the next order, and what went is older than what stayed |
| RemoteSnapshots.OlderMeans | crates/jolt-store/src/store.rs:1106-1112 | a slot is older by order, and on equal orders by the path that comes first |
| RemoteSnapshots.SavedIsYoungest | crates/jolt-store/src/store.rs:1121-1134 | while orders are left, what was saved last is younger than everything else |
| RemoteSnapshots.FailedSaveIndexesNothing | crates/jolt-store/src/store.rs:1085-1134 | a save that fails never indexes the snapshot and adds nothing to the index |
| RemoteSnapshots.SavedEvictsLeast | crates/jolt-store/src/store.rs:1103-1120 | the last entry evicted had to go |
| RemoteSnapshotFailures.ExcessAfter | crates/jolt-store/src/store.rs:1117-1119 | a save leaves the excess of the recorded total as it was, or larger by the size of the entry whose file could not be removed |
| RemoteSnapshotFailures.DriftsIff | crates/jolt-store/src/store.rs:1103-1120 | the total drifts if and only if the oldest entry that has to go and cannot be removed is not empty |
| RemoteSnapshotFailures.CountedIff | crates/jolt-store/src/store.rs:1103-1120 | sizes that add up still add up after a save if and only if there is no such entry |
| RemoteSnapshotFailures.ExcessOnlyGrows | crates/jolt-store/src/store.rs:1085-1134 | over every run the total covers what is indexed and the excess never shrinks |
| RemoteSnapshotFailures.RefusedIffExcess | crates/jolt-store/src/store.rs:1103-1116 | a snapshot is refused as too large if and only if it does not fit beside the excess |
| RemoteSnapshotFailures.StrandedThenRefused | crates/jolt-store/src/store.rs:1117-1119 | with a quota of ten and one scanned snapshot of eight, a save of five meets a file it cannot remove and the same save, with every file removable, is then refused as too large |
| RemoteSnapshots.ScannedCounted | crates/jolt-store/src/store.rs:1157-1175 | an index built from distinct files has sizes that add up |
| RemoteSnapshots.ScannedSlots | crates/jolt-store/src/store.rs:1157-1175 | every file is indexed, with write orders in the order of the files |
| RemoteSnapshots.RemoteIdentityStateStore.constructor | crates/jolt-store/src/store.rs:1157-1175 | the scanning loop builds that index |
| RemoteSnapshots.RemoteIdentityStateStore.Oldest | crates/jolt-store/src/store.rs:1106-1112 | an entry least by write order and path |
| RemoteSnapshots.RemoteIdentityStateStore.Save | crates/jolt-store/src/store.rs:1085-1134 | the eviction loop terminates, and the save is one the relation allows |
| FetchManager.Manager.StartFetch | crates/jolt-network/src/fetch_manager.rs:84-118 | the new fetch in place, its requests remembered, a replaced fetch's channel dropped |
| FetchOutcomes.TimeoutsMean | crates/jolt-network/src/fetch_manager.rs:383-413 | a sweep ends exactly the fetches older than the timeout, tells each caller once and forgets their requests |
| FetchOutcomes.FirstAnswerWins | crates/jolt-network/src/fetch_manager.rs:124-169 | the first matching response answers the caller with its bytes, and what comes back on the fetch's other requests changes nothing |
| FetchOutcomes.PeersFail | crates/jolt-network/src/fetch_manager.rs:172-218 | as the peers asked fail one by one the fetch waits for exactly the others and after the last for a provider, its caller held throughout |
| FetchOutcomes.AskedHolds | crates/jolt-network/src/fetch_manager.rs:252-320 | a provider found, connected and asked leaves the fetch in flight under that request with its caller held, and every other caller with its fetch |
| FetchManager.Manager.OnPeerConnected | crates/jolt-network/src/fetch_manager.rs:305-320 | the fetches waiting for that peer, and no others, are marked connected |
| FetchOutcomes.ProviderAnswers | crates/jolt-network/src/fetch_manager.rs:353-380 | the request sent to a provider answers the caller: matching bytes, or not found on a mismatch or failure, and the fetch is over |
| FetchOutcomes.ProviderStays | crates/jolt-network/src/fetch_manager.rs:295-300 | a fetch that has a provider is unmoved by another, and one that waits for none by a sent request |
| FetchManager.Manager.CheckTimeouts | crates/jolt-network/src/fetch_manager.rs:383-413 | exactly the overdue fetches are answered with a timeout |
| FetchRuns.StepAccounted | crates/jolt-network/src/fetch_manager.rs:84-413 | one event adds to the account of a ticket only by handing it in |
| FetchRuns.TicketsConserved | crates/jolt-network/src/fetch_manager.rs:84-413 | over every run a channel handed in is held under its id, answered, or dropped, each time exactly one of them, and bytes only answer the id they match |
| FetchRuns.StepDrops | crates/jolt-network/src/fetch_manager.rs:84-118 | a channel is dropped only by starting over an active fetch |
| FetchRuns.DroppedExactly | crates/jolt-network/src/fetch_manager.rs:84-118 | over every run a channel is dropped exactly as often as its own fetch is started over while holding it |
| FetchRuns.AnsweredOnceOrHeld | crates/jolt-network/src/fetch_manager.rs:84-413 | over every run, whatever happens to other ids, a channel is as often handed in as it is answered, held or started over |
| FetchRuns.TimeoutsClear | crates/jolt-network/src/fetch_manager.rs:383-413 | after the check nothing overdue is left and nothing else changed |

## Left out

- Ed25519, BLAKE3, HPKE, CIDs: signature checks and digests are arbitrary functions in `Env`.
- Files, JSON, locks, channels and the clock: each locked region is one step, and time, random draws and the outcome of file operations are inputs.
- Restarts: state reloaded from disk after a failed write is not modelled.
- 64-bit wrap-around of sizes and counts in memory: lengths, byte sums and change-stream sequences are unbounded unless a clause says otherwise; the remote-snapshot index saturates as the source does.
- DeviceWriterLog.NextKeepsShape: asks that the next sequence number fits 64 bits, where the source would overflow.
- HashChains.HashIdentifies: asks that the bodies in play have no digest collision and field lengths below 2^64.
- DeltaServing.PageWithinLimits: the CBOR of a single entry or authority record is an arbitrary item, since serde derives it; the bound does not cover full responses or pages without entries, which the source does not bound.
- SyncPages.SyncConverges: is for sessions answered with deltas to the end, for providers that list no empty log and whose chains do not get older, and for a requester no other sync writes to in between; a requester whose chain is newer than the provider's keeps its own.
- UpdateLog.SelectsLongestVerified: is for candidates that are not empty; on an empty one the source indexes out of bounds.
- Requester.MergeVerifiedState: one error stands for the three messages of the completeness check.
- ChangeStreamRuns.ClientsStayInStep: asks that no sequence number leaves 64 bits, and speaks of clients whose last snapshot came from the running stream.
- ChangeStreamClients.AttentiveStaysInStep: asks for a clock that does not run backwards.
- ChangeStreams.DataChangeStreams.Next: covers one locked turn; parking, waking and the timeout event, which returns the cursor unchanged, are outside the step.
- AppSessionRuns.TokenStaysSpent: asks that every approval draws a token hash nobody holds.
- AppSessions.AppSessionStore.RevokeSession: models both single-session revocations, which differ in the test they look records up with; in-memory refresh sets are not modelled.
- ContentCache.ContentStore.CacheContent: manifest files are not modelled, nor is anything else that writes under the cache directory.
- RemoteSnapshots.SavedWithinQuotas: asks for a quota below 2^64 - 1, so that saturating addition cannot hide an excess.
- RemoteSnapshotFailures.DriftsIff: asks for snapshots of different identities to have different paths, as the source names them.
- RemoteSnapshots.RemoteIdentityStateStore.constructor: takes the files already sorted by modification time and path.
- Which requests still map to a fetch: the source does not clean up a failed fetch's siblings, so no claim is made.
- Address resolution, `JoltAddress` printing and parsing, relay records, reachability, pin requests, identity-head hints and encryption-key records: one-record checks that would only add easy members.
- The daemon loop, libp2p and iroh transport, ingress, HTTP server, CLI, client, consoles and SDKs.
