# redcode: the end-to-end encryption state machine and the release gates

This project models three parts of the repository and proves what they promise.

**The E2EE core** (`e2ee-core`). A device keeps one buffer, sends it with every command and replaces it by
what comes back. `StateCodec` models the state buffer, `Envelopes`, `CommandFrames` and `Fixtures` the
frames, `WireFormats` writes them out byte by byte and `Damage` tells what becomes of one that was cut, lengthened
or altered; `Sessions` and `MlsSessions` model the session over the storage map, `Commands` the stateless command.
OpenMLS is an `Engine`: a record of arbitrary functions over the storage map, each of which may write before
it fails. `Refinement` proves that threading a buffer through such commands is the same, over every run, as
holding a live session that rolls back on error; the only assumption is that the engine leaves the session's
own three keys and its stored signers alone (`Engines.Lawful`). `Responses` proves that no answer is lost to the
narrowing of lengths. `GroupLaws` states what is assumed of the library about groups: section 12.4.2 of
RFC 9420, that additions and removals do what they are asked, and that groups do not touch each other. Under it,
and a delivery service that lets one commit through per epoch, `Convergence`, `GroupFrames` and `GroupRuns` prove
that the devices of a group agree and list exactly the creator and those added without those removed, over every
run, whatever else the devices do, as long as only basic credentials were added. `Forks` proves what happens without the second assumption. `Answers` tells what a client reads in the answer to each
command, from the bytes of the request to the fields of the response and the state among them; for messages and key
packages it assumes that they mean what they were made of (`GroupLaws.Conveys`, sections 6 and 10 of RFC 9420), for
approvals that what a stored key pair signs is accepted under its public key (`GroupLaws.SignsFor`). All laws about
signing, sending and committing are assumed only of key pairs that the storage holds. `ForkExample` gives an engine
that meets all the laws (`LawfulEngine`, `FollowsRfcEngine`, `ConveysEngine`, `SignsForEngine`) and runs in it, from
INITIALIZE to such a fork, to a message read and to a removal.

**The supply-chain gate** (`scripts/supply-chain`). `Calendar` is the UTC calendar of section 21.4.1 of
ECMA-262, `Expiry` the date checks over it, `SupplyChain` the identity comparison, the routing of findings to
exceptions and the verdict, as functions and as the program that keeps the counters. `GateVerdict` and `GateOutcome`
tell the verdict, the refusals and every entry of the outcome from the inputs alone.

**The evidence and release verifiers** (`scripts/e2ee-evidence`, `scripts/h5-release-security.ts`). `JsonText`
is JSON text as `JSON.stringify` writes it, with the proof that it can be read in one way only, and `JsonLayout` says
which text that is, character by character, after section 25.5.2 of ECMA-262.
`CanonicalJson`, `ObjectKeys`, `KeyTies`, `EvidenceIntegrity` and `EvidenceScan` are the canonical printer, the
order in which objects enumerate their keys, the digest and the content checks; `Provenance` the four-subject
verifier; `ReleaseManifests`, `ReleaseContents`, `ReleaseOrder`, `ReleaseFinalizing` and `ReleaseExample` the
directory manifest and the searches in the built files. `ProvenanceVerdict`, `ReleaseVerdict` and `ReleaseSearches`
say when the verifiers accept without naming any of their functions.

Code that works step by step is a class or a method proved equal to a function; the properties are lemmas
about those functions. Byte strings are sequences of integers below 256, JavaScript strings sequences of
16-bit code units where their order or their JSON text matters.

Four things the code does not do as one might expect, and exactly when it does:

- `localeCompare` may hold two different keys or paths equal. The canonical text of a parsed value is independent
  of key order if and only if no two keys of one object tie of which neither is an array index
  (`KeyTies.OrderIndependentExactly`, with a pair of keys that shows in `KeyTies.EquivalentKeysShowOrder` and one
  that does not in `KeyTies.TieWithIndexHidden`), and a sealed evidence file verifies under every key order under
  just that condition (`EvidenceIntegrity.ReverifiesExactly`); the manifest check is independent of the order of
  `readdir` if and only if no two asset paths tie (`ReleaseOrder.PassesInAnyOrderExactly`, with a release that is
  refused though nothing in it changed in `ReleaseExample.UnchangedAndRefused`).
- Field 0 of a response is the new state for the commands 1 to 10 only. SIGN_DEVICE_APPROVAL and LIST_MEMBERS
  answer with something else; the client of `Refinement` keeps its buffer after those, and a member list fed
  back as a state is always refused (`CommandFrames.MemberListIsNoState`).
- Because a device merges its own commit before it is accepted anywhere, two devices that commit at one epoch
  refuse each other's commit from then on, and agree about the members exactly when they asked for the same change
  (`Forks.ForkExactly`); a welcome to the other's branch still brings one over (`ForkExample.CommitsAtOneEpochFork`).
- The final check of the provenance verifier, that no category is left, can never fail
  (`Provenance.NoCategoryLeft`): the count taken before the loop decides it.

## Model

| member | source | states |
|---|---|---|
| `StateCodec.ImportExact` | e2ee-core/src/lib.rs:47-85 | on every byte string, `import_state` returns Ok(m) if and only if the bytes are the header and exactly the counted, well-delimited records with pairwise distinct keys, nothing after them and both limits kept, and m is the map of those records |
| `StateCodec.ImportComplete` | e2ee-core/src/lib.rs:47-85 | every buffer of the grammar is accepted with the map its records denote |
| `StateCodec.ImportSound` | e2ee-core/src/lib.rs:47-85 | an accepted buffer is of the grammar; its records are exhibited |
| `StateCodec.StatesPrefixFree` | e2ee-core/src/lib.rs:60-77 | no accepted buffer is a proper prefix or extension of another, and a buffer has one decomposition into records |
| `StateCodec.RoundTrip` | e2ee-core/src/lib.rs:87-115 | whenever `export_state` succeeds on a map, importing the result yields exactly that map |
| `StateCodec.ExportInjective` | e2ee-core/src/lib.rs:87-115 | two maps export to the same bytes if and only if they are equal |
| `StateCodec.ExportExactly` | e2ee-core/src/lib.rs:87-115 | some bytes are the export of a map if and only if both limits are kept and they are the frame of records that are the map's, one for each key, every key smaller than the next in the order of bytes from the left |
| `StateCodec.CanonicalUnique` | e2ee-core/src/lib.rs:96-97 | the sorted records of a map do not depend on the order in which the hash map is iterated |
| `StateCodec.NormalForm` | e2ee-core/src/lib.rs:47-115 | exporting an imported buffer always succeeds, has the buffer's length, rearranges its records into ascending key order, imports as the same map, and equals the buffer if and only if its records already ascended |
| `Damage.StateCut` | e2ee-core/src/lib.rs:47-85 | a state cut short anywhere is refused as truncated, or for its header when not even that is left |
| `Damage.StateExtended` | e2ee-core/src/lib.rs:75-77 | bytes behind the records counted are refused as trailing |
| `Damage.KeyRepeated` | e2ee-core/src/lib.rs:71-73 | a record with the key of one before it is refused as a duplicate, whatever follows |
| `Damage.StateHeaderAltered` | e2ee-core/src/lib.rs:51-62 | another magic, another version and a count above 100,000 have each their own refusal |
| `StateCodec.ReadRecordSound` | e2ee-core/src/lib.rs:204-223 | a record that is read is exactly the bytes between the two offsets |
| `StateCodec.ReadRecordComplete` | e2ee-core/src/lib.rs:204-223 | where a record's bytes stand, that record is read and the offset moves to their end |
| `StateCodec.RecordsUnique` | e2ee-core/src/lib.rs:62-74 | runs of equally many records are delimited in one way, whatever follows |
| `StateCodec.ReadEntry` | e2ee-core/src/lib.rs:65-70 | the four reads that move one offset return what the record function says, errors included |
| `StateCodec.ReadEntries` | e2ee-core/src/lib.rs:62-77 | the loop that fills the map, refuses a repeated key and compares the final offset returns what the grammar's reader says |
| `StateCodec.ProtocolProvider.ImportState` | e2ee-core/src/lib.rs:47-85 | the step-by-step import yields a fresh provider with the imported map, or the same error |
| `StateCodec.ProtocolProvider.Entries` | e2ee-core/src/lib.rs:96-96 | listing the hash map in an arbitrary order yields one record for each key |
| `StateCodec.ProtocolProvider.ExportState` | e2ee-core/src/lib.rs:87-115 | whatever order the listing has, the loop with its running size checks writes the canonical frame, and fails exactly when that frame or the number of entries exceeds its limit |
| `Envelopes.TryNew` | e2ee-core/src/lib.rs:258-267 | an envelope is made exactly for payloads within the limit, with that kind and payload and the protocol version |
| `Envelopes.DecodeEncoded` | e2ee-core/src/lib.rs:269-306 | decoding an encoded envelope gives it back; the frame is 11 bytes longer than the payload |
| `Envelopes.EncodeDecoded` | e2ee-core/src/lib.rs:269-306 | re-encoding any accepted byte string gives exactly those bytes |
| `Envelopes.EnvelopeBijection` | e2ee-core/src/lib.rs:269-306 | bytes decode to an envelope if and only if they are its encoding |
| `Damage.EnvelopeLengthChanged` | e2ee-core/src/lib.rs:269-289 | an envelope cut short anywhere or lengthened is refused for its length |
| `Damage.EnvelopeAltered` | e2ee-core/src/lib.rs:269-289 | another magic, version or kind and a payload declared too long have each their own refusal, in that order; otherwise acceptance is that the payload has the length declared |
| `Fixtures.Encode` | e2ee-core/interop/fixture.rs:12-26 | the loop writes magic, version and the four fields, each behind its narrowed u32 length |
| `Fixtures.ReadFixtureField` | e2ee-core/interop/fixture.rs:53-72 | one field is read, or refused for a truncated length or a truncated body |
| `Fixtures.Decode` | e2ee-core/interop/fixture.rs:28-51 | the four reads over one offset return what the frame's reader says, trailing bytes refused |
| `Fixtures.FixtureBijection` | e2ee-core/interop/fixture.rs:12-72 | bytes decode to a fixture if and only if its fields fit u32 lengths and the bytes are its encoding |
| `Damage.FixtureCut` | e2ee-core/interop/fixture.rs:28-72 | a fixture cut short is refused for its magic, for a length or for a field, by where the cut falls |
| `Damage.FixtureExtended` | e2ee-core/interop/fixture.rs:41-43 | trailing bytes are refused as such |
| `Damage.FixtureAltered` | e2ee-core/interop/fixture.rs:29-34 | another magic and another version have each their own refusal |
| `Fields.ReadFieldsLoop` | e2ee-core/src/command.rs:167-188 | the loop that pushes fields and moves the offset reads what the run's reader says |
| `Fields.ReadFieldsComplete` | e2ee-core/src/command.rs:167-188 | at the bytes of some fields exactly those fields are read, unless one exceeds the limit |
| `Fields.FieldsUnique` | e2ee-core/src/command.rs:167-188 | a counted run of fields has one decomposition, whatever follows |
| `CommandFrames.DecodeRequestLoop` | e2ee-core/src/command.rs:151-194 | the step-by-step decoder computes the request, or the first error in the source's order |
| `CommandFrames.DecodeEncoded` | e2ee-core/src/command.rs:151-194 | a client's frame, for every list of fields, is decoded to what it carries or refused for its length, its count or the size of a field, in that order |
| `CommandFrames.EncodeDecoded` | e2ee-core/src/command.rs:151-194 | a request is accepted only as the frame of its operation and fields, and 8 plus the sum of 4 + field length is its length |
| `CommandFrames.RequestBijection` | e2ee-core/src/command.rs:151-194 | `decode_request` is the exact inverse of the frame encoder on the frames within the limits, so a request has one reading |
| `Damage.RequestCut` | e2ee-core/src/command.rs:151-194 | a request cut short anywhere is refused for its header or for a truncated field |
| `Damage.RequestExtended` | e2ee-core/src/command.rs:190-192 | bytes behind the fields counted are refused as trailing |
| `Damage.RequestAltered` | e2ee-core/src/command.rs:152-166 | another magic, another version and more than eight fields have each their own refusal |
| `CommandFrames.LimitsCompose` | e2ee-core/src/command.rs:3-7 | every exported state, valid group id and encoded envelope fit one request together and come out of it unchanged |
| `CommandFrames.EncodeResponseLoop` | e2ee-core/src/command.rs:196-209 | the response is written field by field as the frame function says, with the count and lengths narrowed |
| `CommandFrames.ResponseRecovered` | e2ee-core/src/command.rs:196-209 | a mirror decoder recovers the status and all fields when the count byte and the length prefixes can measure them |
| `CommandFrames.EncodeMembersLoop` | e2ee-core/src/command.rs:140-144 | the member payload is written as the count and the length-prefixed members |
| `CommandFrames.MembersRecovered` | e2ee-core/src/command.rs:136-146 | a nested member payload that fits a length prefix decodes to the member list |
| `CommandFrames.MemberListIsNoState` | e2ee-core/src/command.rs:136-146 | no member payload, of any list, is ever accepted as a state |
| `WireFormats.StateBytes` | e2ee-core/src/lib.rs:21-28 | a state written out byte by byte: magic, version, count, and for a record the two lengths, the key, the value |
| `WireFormats.EnvelopeBytes` | e2ee-core/src/lib.rs:19-25 | an envelope of each kind written out byte by byte |
| `WireFormats.RequestBytes` | e2ee-core/src/command.rs:3-5 | a request written out byte by byte |
| `WireFormats.ResponseBytes` | e2ee-core/src/command.rs:196-209 | a response and a member payload written out byte by byte |
| `WireFormats.FixtureBytes` | e2ee-core/interop/fixture.rs:1-26 | a fixture written out byte by byte |
| `WireFormats.Limits` | e2ee-core/src/command.rs:5-7 | the limits in numbers: payloads of 16 MiB, states of 64 MiB and 100,000 entries, requests of 81 MiB and eight fields |
| `MlsSessions.MlsSession.InitializeWithRoot` | e2ee-core/src/session.rs:64-100 | the three key inserts and the library calls, in order, give the result of the initialization function, errors included |
| `MlsSessions.MlsSession.Import` | e2ee-core/src/session.rs:102-108 | a session is opened exactly on the states that import and hold an identity with a stored signer |
| `MlsSessions.MlsSession.ExportState` | e2ee-core/src/session.rs:110-112 | the session's state is the export of its storage |
| `MlsSessions.MlsSession.GenerateKeyPackage` | e2ee-core/src/session.rs:114-123 | the storage left behind and the result, on success and on every failure |
| `MlsSessions.MlsSession.CreateGroup` | e2ee-core/src/session.rs:155-176 | likewise; an existing group is refused before anything is written |
| `MlsSessions.MlsSession.AddMember` | e2ee-core/src/session.rs:178-204 | likewise; the commit is merged before it is returned, and partial writes of a failed call stay in the session |
| `MlsSessions.MlsSession.RemoveMember` | e2ee-core/src/session.rs:209-236 | likewise; the empty identity and an unknown member are refused |
| `MlsSessions.MlsSession.ListMembers` | e2ee-core/src/session.rs:239-253 | the identities in ascending order, or the refusal of a credential that is not basic |
| `MlsSessions.MlsSession.JoinGroup` | e2ee-core/src/session.rs:266-286 | the storage and the result of joining by a welcome |
| `MlsSessions.MlsSession.ProcessCommit` | e2ee-core/src/session.rs:288-310 | the storage and the result of applying another's commit; a message that is no commit is refused after processing |
| `MlsSessions.MlsSession.Encrypt` | e2ee-core/src/session.rs:312-331 | the storage and the result; the epoch is the one before sending |
| `MlsSessions.MlsSession.Decrypt` | e2ee-core/src/session.rs:333-357 | the storage and the result; the epoch is the message's own |
| `MlsSessions.SortMembers` | e2ee-core/src/session.rs:251-251 | any ascending arrangement of the identities is the sorted list, so the library's choice of sort does not show |
| `Sessions.Identities` | e2ee-core/src/session.rs:241-250 | all identities in leaf order if every credential is basic, and otherwise the one error |
| `SessionLaws.OperationKeeps` | e2ee-core/src/session.rs:114-357 | for every lawful engine no operation, failing or not, loses the session's three entries or a stored signer |
| `SessionLaws.AnswerCarriesState` | e2ee-core/src/command.rs:45-146 | field 0 of a successful state-returning command is the export of the storage it left; the other commands leave the storage alone |
| `SessionLaws.InitializedReady` | e2ee-core/src/session.rs:64-100 | the state INITIALIZE returns is the export of a storage that the next import accepts, and the material returned is the one stored, with the given root key or else the signer's |
| `SessionLaws.GateIsExclusive` | e2ee-core/src/session.rs:407-413 | the gates of `join_group`, `process_commit` and `decrypt` open to exactly the envelopes of their kind, so no bytes get past two; at a closed gate the operation returns the gate's error and leaves the storage it was given |
| `Convergence.AddedMessagesOpen` | e2ee-core/src/session.rs:194-197 | the commit and the welcome of an addition pass the gates of `process_commit` and `join_group` |
| `Convergence.RemovedMessageOpens` | e2ee-core/src/session.rs:228-230 | the commit of a removal passes the gate of `process_commit` |
| `Convergence.EncryptedMessageOpens` | e2ee-core/src/session.rs:322-331 | an encrypted message passes the gate of `decrypt` |
| `Commands.ExecuteDecoded` | e2ee-core/src/command.rs:30-149 | every arm of the dispatch: field count, import, operation, response fields in order, errors |
| `Commands.ExecuteCommand` | e2ee-core/src/command.rs:22-28 | the response frame is the encoding of the outcome with status 0, or of the error text with status 1 |
| `ByteStrings.U64Exactly` | e2ee-core/src/command.rs:71-71 | an epoch is written as the eight bytes that, weighted by descending powers of 256, say it, or what 2^64 leaves of it |
| `Answers.AddAnswered` | e2ee-core/src/command.rs:61-73 | an answered ADD_MEMBER has four fields: a state that holds the group moved on by the addition, the commit that tells just that change, the welcome that tells the result, and in eight bytes the epoch of that group |
| `Answers.JoinAnswered` | e2ee-core/src/command.rs:74-79 | an answered JOIN_GROUP has a state that holds the group of the welcome, and its epoch |
| `Answers.ProcessAnswered` | e2ee-core/src/command.rs:110-117 | an answered PROCESS_COMMIT has a state in which the group has moved on by the commit's change, and the epoch it is then at |
| `Answers.RemoveAnswered` | e2ee-core/src/command.rs:118-129 | an answered REMOVE_MEMBER has a state that holds the group without the member, the commit that tells just that change, and the epoch of that group |
| `Answers.CreateAnswered` | e2ee-core/src/command.rs:56-60 | an answered CREATE_GROUP has one field, a state in which the creator is alone in the group at epoch 0, and there was no such group before |
| `Answers.EncryptAnswered` | e2ee-core/src/command.rs:80-86 | an answered ENCRYPT has an application envelope that says the plaintext at the epoch the group was at, and that epoch in eight bytes |
| `Answers.DecryptAnswered` | e2ee-core/src/command.rs:87-96 | an answered DECRYPT has what the message says and the epoch it says it at |
| `Answers.DecryptEpoch` | e2ee-core/src/command.rs:87-96 | the eight bytes of its last field say the epoch of the message itself, for every engine |
| `Answers.MessageArrives` | e2ee-core/src/session.rs:312-357 | what one device encrypts another that decrypts it reads, and both are told the same epoch |
| `Answers.MaterialAnswered` | e2ee-core/src/command.rs:97-109 | an answered PUBLIC_MATERIAL has the state as it was, the root key, its digest, identity, zero byte and signature key together, their digest, and the signature key |
| `Answers.CredentialKnown` | e2ee-core/src/session.rs:142-145 | credentials with signature keys of one length are equal only for one identity and one key |
| `Answers.KeyPackageAnswered` | e2ee-core/src/command.rs:50-55 | an answered GENERATE_KEY_PACKAGE has a key package for the session's own identity |
| `Answers.InitializeAnswered` | e2ee-core/src/command.rs:33-49 | an answered INITIALIZE has a state that opens a session with the identity given, a key package for it, and its public material under the root key given or else the new signer's |
| `Answers.ApprovalAccepted` | e2ee-core/src/session.rs:256-264 | an answered SIGN_DEVICE_APPROVAL has one field, a signature that is accepted for the payload given under the session's signature key |
| `Answers.ListAnswered` | e2ee-core/src/command.rs:136-146 | an answered LIST_MEMBERS has one field, the encoding of the identities of the group's members, all of basic credentials, in the order of their bytes |
| `Answers.ListRefused` | e2ee-core/src/session.rs:241-250 | a stored group's list is refused if and only if some member's credential is not basic |
| `Answers.ExistingGroupRefused` | e2ee-core/src/session.rs:157-162 | where a group of that id is stored, CREATE_GROUP answers that it exists and the storage stays as it was, for every engine |
| `Answers.CreatedAnew` | e2ee-core/src/session.rs:156-162 | a creation that succeeds had a valid id and no stored group of that id |
| `Answers.MergedThoughUnsent` | e2ee-core/src/session.rs:189-197 | an addition or removal whose commit cannot be encoded leaves the session with the commit merged |
| `Answers.EmptyInputsRefused` | e2ee-core/src/session.rs:214-314 | an empty identity to remove, plaintext or approval payload is refused by its own error |
| `Answers.UnknownMemberRefused` | e2ee-core/src/session.rs:219-222 | removing an identity without a leaf is refused as such and changes nothing |
| `Answers.UnexpectedRefused` | e2ee-core/src/session.rs:266-357 | an envelope of the right kind without a welcome, a commit or an application message in it is refused as unexpected, the last two after processing |
| `Answers.AbsentGroupRefused` | e2ee-core/src/session.rs:392-397 | without the stored group, removals, messages and lists are refused as such and change nothing |
| `Answers.UninitializedRefused` | e2ee-core/src/session.rs:155-331 | a storage without identity, signature key or its key pair creates, adds, removes, sends and signs nothing |
| `Answers.IdentityRefused` | e2ee-core/src/session.rs:68-70 | INITIALIZE refuses an identity if and only if it is empty or longer than 65,535 bytes |
| `Answers.RootKeyRefused` | e2ee-core/src/session.rs:77-82 | a root key that is not 32 bytes long is refused |
| `Answers.SessionOpensExactly` | e2ee-core/src/session.rs:102-108 | a state opens a session if and only if it imports and holds an identity and the key pair of its signature key |
| `Answers.MiscountRefused` | e2ee-core/src/command.rs:30-149 | a request is refused for its number of fields or as unsupported if and only if the table of operations says so |
| `Answers.GroupIdRefused` | e2ee-core/src/session.rs:415-420 | an empty group id or one above 1024 bytes is refused by every command that names a group |
| `Commands.OutcomeFieldCount` | e2ee-core/src/command.rs:30-149 | every successful outcome has one to seven fields |
| `Responses.StoredBound` | e2ee-core/src/lib.rs:99-113 | whatever is stored in a state that can be exported is at most 64 MiB long |
| `Responses.AddMeasurable` | e2ee-core/src/command.rs:71-83 | every field of an ADD_MEMBER answer fits its length prefix, whatever the library does |
| `Responses.MembersMeasurable` | e2ee-core/src/command.rs:136-146 | the member payload is 4 bytes long plus, for each leaf in whatever order, 4 and the length of its content, which for such a library stays below 2^32 |
| `Responses.OperateRecoverable` | e2ee-core/src/command.rs:45-146 | every field and every error text of every operation fits a length prefix, given only that the library's opaque outputs do |
| `Responses.ExecutionRecovered` | e2ee-core/src/command.rs:22-28 | responses lose nothing to narrowing: on any request, for every library whose opaque outputs stay below 2^32 bytes, a mirror decoder recovers status and fields |
| `Responses.MemberListArrives` | e2ee-core/src/command.rs:136-146 | end to end: the decoded LIST_MEMBERS response holds the session's sorted member list |
| `Refinement.AdmissionAgrees` | e2ee-core/src/command.rs:151-194 | a client's request is refused exactly when the live session, told only the sizes, would refuse it |
| `Refinement.DispatchAgrees` | e2ee-core/src/command.rs:30-149 | what is decoded is answered as the live operation answers, and the returned state is the export of the storage it leaves |
| `Refinement.StepAgrees` | e2ee-core/src/command.rs:30-149 | one command gives the same answer on both sides and keeps the buffer equal to the exported storage |
| `Refinement.RunsAgree` | e2ee-core/src/command.rs:30-149 | any sequence of commands gives the same answers and ends with the buffer that is the export of the live session's storage |
| `Refinement.RunFromInitialize` | e2ee-core/src/session.rs:64-112 | in every run starting at INITIALIZE the state held at the end is accepted by the next import, as exactly the live session's storage |
| `Refinement.RunKeeps` | e2ee-core/src/session.rs:64-112 | over a whole run without INITIALIZE the session's entries and stored signers stay |
| `Refinement.MaterialIsStable` | e2ee-core/src/session.rs:125-153 | whatever a device has done since INITIALIZE, PUBLIC_MATERIAL succeeds, returns the state unchanged and reports the very material that was registered |
| `Convergence.AddAdvances` | e2ee-core/src/session.rs:178-204 | an addition adds exactly the member its key package is for, moves the group on by one epoch, which is the epoch returned, announces just that change in its commit, and describes the result in its welcome |
| `Convergence.RemoveAdvances` | e2ee-core/src/session.rs:209-236 | a removal removes exactly the member of the identity asked for, which the group has, and announces just that change in its commit, at the epoch it returns |
| `Convergence.ProcessAdvances` | e2ee-core/src/session.rs:288-310 | an accepted commit is of the group's epoch and moves it on by exactly its change, to the epoch returned |
| `Convergence.CreateStarts` | e2ee-core/src/session.rs:155-176 | a created group has its creator alone, at epoch 0 |
| `Convergence.JoinLands` | e2ee-core/src/session.rs:266-286 | a join leaves the group that the welcome describes, at the epoch it returns |
| `Convergence.EncryptKeepsRoster` | e2ee-core/src/session.rs:312-331 | after encrypting, the group still loads, with the same epoch and roster, and that epoch is returned |
| `Convergence.DecryptKeepsRoster` | e2ee-core/src/session.rs:333-357 | after decrypting, the group still loads, with the same epoch and roster |
| `Convergence.StaleCommitRefused` | e2ee-core/src/session.rs:288-310 | a commit of another epoch is refused and leaves the threaded storage exactly as it was |
| `Convergence.RepeatRefused` | e2ee-core/src/session.rs:288-310 | a commit that was applied leaves the device past its epoch, and there and at every later epoch it is refused and changes nothing |
| `GroupFrames.AsideKeepsGroup` | e2ee-core/src/command.rs:30-149 | every command that names another group or none, failing or not, leaves this group as it was |
| `GroupRuns.RunKeepsInv` | e2ee-core/src/session.rs:114-357 | over every run of additions, removals, deliveries in any order and any number of times, joins, traffic and whatever devices do aside, each device holds the roster that the requests up to its epoch make |
| `GroupRuns.MemberListForgetsLeafOrder` | e2ee-core/src/session.rs:239-253 | the member list depends on the multiset of members, not on the order of the leaves |
| `GroupRuns.DevicesConverge` | e2ee-core/src/command.rs:136-146 | after every such run two devices at equal epochs hold the same members and answer LIST_MEMBERS with the same bytes |
| `GroupRuns.CreationStarts` | e2ee-core/src/session.rs:155-176 | a successful `create_group` on one device, with no other holding the group, starts the invariant with the creator alone |
| `GroupRuns.ListIsHistory` | e2ee-core/src/session.rs:239-253 | after every run from a creation, `list_members` on each device answers if and only if only basic credentials were added before its epoch, and then with, in ascending order, the creator and those added before its epoch without those removed before it |
| `Forks.CommitMoves` | e2ee-core/src/session.rs:178-236 | a successful addition or removal moves the group on by the requested change, and announces it |
| `Forks.PassedCommitRefused` | e2ee-core/src/session.rs:288-310 | a device past a commit's epoch, however far, refuses that commit and keeps its state |
| `Forks.OwnCommitRefused` | e2ee-core/src/session.rs:178-310 | a device's own commit, of an addition or a removal, is merged already, and refused when it comes back, then and at every later epoch |
| `Forks.ForkExactly` | e2ee-core/src/session.rs:178-236 | for every engine, two devices at one epoch with the same members that both commit refuse each other's commit at once and ever after, and have the same members exactly when they asked for the same addition or the same removal |
| `ForkExample.TwoInARoom` | e2ee-core/src/session.rs:64-286 | in a small engine under both laws: initialize twice, create, add and join bring two devices into one room |
| `ForkExample.ReadAndRemoved` | e2ee-core/src/session.rs:209-357 | there one encrypts, the other decrypts the very plaintext, and one removes the other and then lists itself alone |
| `ForkExample.CommitsAtOneEpochFork` | e2ee-core/src/session.rs:178-310 | and when each then adds someone they stand at equal epochs with different members, refuse each other's commit, and only a welcome brings one over |
| `ForkExample.ConveysEngine` | e2ee-core/src/session.rs:312-357 | the small engine's messages and key packages mean what they were made of |
| `ForkExample.SignsForEngine` | e2ee-core/src/session.rs:256-264 | and its signatures are accepted for the payload signed |
| `Calendar.YearLength` | scripts/supply-chain/expiry.ts:12-18 | every year takes as many days as its leap rule says, for all years |
| `Calendar.MonthLength` | scripts/supply-chain/expiry.ts:14-14 | the table that MakeDay adds from has the months' lengths |
| `Calendar.DayNumberCounts` | scripts/supply-chain/expiry.ts:12-14 | day numbers count days: the epoch is 0 and the day after any real date is one more |
| `Calendar.ReadBackReal` | scripts/supply-chain/expiry.ts:15-21 | every day number reads back as a real date with that number |
| `Calendar.ReadBackOwn` | scripts/supply-chain/expiry.ts:12-21 | the day number of a real date reads back as that date |
| `Calendar.RollOverShows` | scripts/supply-chain/expiry.ts:14-21 | setting any year, month and day and reading back returns them if and only if they are a real date, so every roll-over shows |
| `Calendar.DayNumberOrder` | scripts/supply-chain/expiry.ts:22-22 | an earlier real date has a smaller day number |
| `Expiry.ParseExact` | scripts/supply-chain/expiry.ts:5-23 | a string is accepted if and only if it is dddd-dd-dd naming a real date, with 86,400,000 times its day number as the result |
| `Expiry.DateTextExactly` | scripts/supply-chain/expiry.ts:1-11 | the accepted shape is exactly the four, two and two digits of a year, month and day with hyphens between |
| `Expiry.TimeFollowsStringOrder` | scripts/supply-chain/expiry.ts:5-23 | between accepted strings, string order is time order, both ways |
| `Expiry.QuotientIsDays` | scripts/supply-chain/expiry.ts:37-37 | the millisecond quotient is the whole number of days between the dates |
| `Expiry.WindowExact` | scripts/supply-chain/expiry.ts:25-40 | accepted if and only if both dates are real, the limit is an integer from 1 to 90 and the expiry lies 0 to that many calendar days after today |
| `Expiry.RefusalExactly` | scripts/supply-chain/expiry.ts:25-40 | and otherwise it is refused for the limit, for a date, for a day that is past or for one too far ahead, in that order |
| `Expiry.MaximumExact` | scripts/supply-chain/expiry.ts:42-52 | the policy value is accepted if and only if it is an integer from 1 to 90 |
| `SupplyChain.ValidExactly` | scripts/supply-chain/evaluate.ts:49-82 | the exception list is valid if and only if every exception's seven texts are exact, which is neither empty nor led by white space nor with a wildcard, and its expiry lies from today to the permitted number of days ahead |
| `SupplyChain.FirstBadReported` | scripts/supply-chain/evaluate.ts:49-82 | otherwise the first exception that does not hold is the one reported, for a field or else for its expiry |
| `Orders.ElementsCount` | scripts/supply-chain/evaluate.ts:213-217 | a set built of a list has the list's size if and only if nothing repeats |
| `SupplyChain.SameTextSame` | scripts/supply-chain/evaluate.ts:243-254 | comparing lists by their JSON texts is comparing the lists |
| `SupplyChain.Deduplicated` | scripts/supply-chain/evaluate.ts:193-193 | the lockfile identities, each once |
| `SupplyChain.CoverageExact` | scripts/supply-chain/evaluate.ts:185-260 | a module passes the identity checks if and only if its reports are there and complete, the SBOM is of the commit, and report, SBOM and lockfile have the same name@version texts, the first two without repetition |
| `SupplyChain.FirstMatch` | scripts/supply-chain/evaluate.ts:100-108 | the least index of an exception with the finding's key, or none if there is none |
| `SupplyChain.UsedMeaning` | scripts/supply-chain/evaluate.ts:99-115 | an exception is used if and only if a finding has its key and no earlier exception has |
| `SupplyChain.DuplicateAborts` | scripts/supply-chain/evaluate.ts:319-328 | a second exception for a key is never used, so the gate always aborts and names it |
| `SupplyChain.AllUsedExactly` | scripts/supply-chain/evaluate.ts:319-328 | nothing is left over if and only if the exceptions' keys are distinct and all found |
| `SupplyChain.NothingBlocked` | scripts/supply-chain/evaluate.ts:99-115 | nothing blocks if and only if every finding's key has an exception |
| `GateVerdict.FindingsExactly` | scripts/supply-chain/evaluate.ts:262-304 | findings are collected if and only if every module passes and every group has an id, and then a key is among them if and only if some package of some module has a group of that id whose severity reaches the threshold or is unknown where that blocks, or a license in violation while the package is none of the project's own |
| `GateVerdict.PassExactly` | scripts/supply-chain/evaluate.ts:45-349 | on all inputs: the gate completes if and only if the policy, the exceptions and the modules are in order, no two exceptions share a key and each is due; it passes if and only if, moreover, everything due has an exception |
| `GateVerdict.UnusedExactly` | scripts/supply-chain/evaluate.ts:319-328 | with everything in order it is refused only for exceptions whose key is not due or was there before, and reports exactly those, ascending |
| `GateOutcome.OutcomeExactly` | scripts/supply-chain/evaluate.ts:262-346 | the two lists of the outcome, entry by entry: in the order of the reports the findings that stand there, with their severities, those with an exception in one list, with that exception, those without in the other, none missing and none twice |
| `GateVerdict.SummaryExactly` | scripts/supply-chain/evaluate.ts:305-317 | the summary has one entry a module, in order, with that module's numbers of packages, components, severe groups and licenses in violation |
| `SupplyChain.RoutingConserves` | scripts/supply-chain/evaluate.ts:99-115 | every gated finding is accepted or blocking, exactly once, and each accepted one carries an exception with its key |
| `SupplyChain.CountersBalance` | scripts/supply-chain/evaluate.ts:262-317 | for vulnerabilities and for licenses, accepted plus blocking findings equal the sum of the modules' counters |
| `SupplyChain.Gate.ValidateExceptions` | scripts/supply-chain/evaluate.ts:49-82 | the loop reports the first bad exception and its index |
| `SupplyChain.Gate.RouteFinding` | scripts/supply-chain/evaluate.ts:99-115 | the search and the three updates are the routing step |
| `SupplyChain.Gate.RouteVulnerabilities` | scripts/supply-chain/evaluate.ts:266-292 | the loop over a package's groups routes the gated ones in order and counts them |
| `SupplyChain.Gate.RouteLicenses` | scripts/supply-chain/evaluate.ts:293-304 | the loop over a package's licenses routes and counts them, project components excepted |
| `SupplyChain.Gate.EvaluateModule` | scripts/supply-chain/evaluate.ts:196-317 | a module's checks, its findings routed in order, and its summary with the counters |
| `SupplyChain.Gate.EvaluateModules` | scripts/supply-chain/evaluate.ts:196-317 | all modules in order, stopping at the first error |
| `SupplyChain.Gate.Run` | scripts/supply-chain/evaluate.ts:45-349 | the whole program computes the outcome or the first error |
| `JsonText.Unquote` | scripts/e2ee-evidence/contract.ts:21-21 | a JSON string literal reads back as its string, whatever follows |
| `JsonText.ShowInjective` | scripts/h5-release-security.ts:343-344 | values have the same JSON text if and only if they are equal, entry order included |
| `JsonLayout.EscapeExactly` | scripts/e2ee-evidence/contract.ts:21-24 | a string is written unit by unit by the table of ECMA-262: two-character escapes for seven units, lower-case `\u` escapes for the other control units and lone surrogates, everything else verbatim |
| `JsonLayout.VerbatimExactly` | scripts/e2ee-evidence/contract.ts:21-24 | a string is written verbatim between quotes if and only if it has no quote, backslash, control unit or lone surrogate |
| `JsonLayout.ShowExactly` | scripts/h5-release-security.ts:343-344 | the whole text of a value: literals, numbers, brackets, commas, colons and strings by that table |
| `CanonicalJson.PrintShowsCanon` | scripts/e2ee-evidence/contract.ts:16-25 | the printer writes out the value with every object's entries sorted |
| `JsonLayout.CanonExactly` | scripts/e2ee-evidence/contract.ts:18-22 | the sorted form has at every depth the same entries, their values in sorted form, in ascending order of their keys |
| `JsonLayout.PrintExactly` | scripts/e2ee-evidence/contract.ts:16-25 | the canonical text is that text of the sorted form |
| `CanonicalJson.SameCanonEquiv` | scripts/e2ee-evidence/contract.ts:16-25 | values with the same sorted form differ in the order of keys only |
| `CanonicalJson.EquivSameCanon` | scripts/e2ee-evidence/contract.ts:16-25 | without ties, values that differ in the order of keys only have the same sorted form |
| `CanonicalJson.PrinterIsCanonical` | scripts/e2ee-evidence/contract.ts:16-25 | same text implies equal up to key order at every depth, always; and the converse when no two keys of one object tie |
| `ObjectKeys.ParsedPrintsAlike` | scripts/e2ee-evidence/contract.ts:16-25 | parsed values without ties print alike exactly when they are equal up to key order, a tie with an array index being none, since indices are enumerated first |
| `ObjectKeys.IndexExactly` | scripts/e2ee-evidence/contract.ts:19-19 | the keys enumerated first are the decimal texts of the numbers below 2^32 - 1 |
| `KeyTies.OrderIndependentExactly` | scripts/e2ee-evidence/contract.ts:16-25 | the text of a parsed value is independent of key order if and only if no two keys of one object tie of which neither is an array index |
| `KeyTies.EquivalentKeysShowOrder` | scripts/e2ee-evidence/contract.ts:19-22 | a concrete pair of equal objects with different texts wherever two given keys tie |
| `KeyTies.TieWithIndexHidden` | scripts/e2ee-evidence/contract.ts:18-20 | a concrete tie between an array index and another key that never shows |
| `EvidenceIntegrity.ReverifiesInAnyOrder` | scripts/e2ee-evidence/verify.ts:303-306 | a sealed file verifies however its keys are ordered, as long as no two keys of one object of the envelope tie of which neither is an array index |
| `EvidenceIntegrity.ReverifiesExactly` | scripts/e2ee-evidence/verify.ts:303-306 | under a collision-free hash the sealed file verifies under every order of keys if and only if that condition holds |
| `EvidenceIntegrity.DigestPinsContents` | scripts/e2ee-evidence/contract.ts:27-29 | under a collision-free hash, files that verify against one digest have equal contents, key order apart |
| `EvidenceIntegrity.VerifiedExactly` | scripts/e2ee-evidence/verify.ts:303-306 | a file verifies if and only if its entry `integrity_sha256` is the digest of the canonical text of all its other entries |
| `EvidenceIntegrity.SealExactly` | scripts/e2ee-evidence/sanitize.ts:333-333 | sealing adds last the entry with the digest of the canonical text of the rest |
| `EvidenceScan.ExactKeysExactly` | scripts/e2ee-evidence/contract.ts:31-42 | an object is let through if and only if its keys are the listed ones, in any order |
| `EvidenceScan.ExactKeysForgetOrder` | scripts/e2ee-evidence/contract.ts:31-42 | the answer does not depend on the order of keys |
| `EvidenceScan.AbsentExactly` | scripts/e2ee-evidence/contract.ts:93-116 | a value is let through if and only if no path, however deep, leads to a sensitive key or string |
| `EvidenceScan.AbsenceSurvives` | scripts/e2ee-evidence/verify.ts:305-307 | what the sanitizer let through the verifier lets through, however the file's keys are ordered |
| `Provenance.ReadSidecar` | scripts/e2ee-evidence/verify-provenance.ts:112-122 | the loop that fills the map computes the sidecar's map or its error |
| `Provenance.SidecarExactly` | scripts/e2ee-evidence/verify-provenance.ts:112-122 | the sidecar's map is that of some valid, distinctly named artifacts if and only if its lines are their lines, rearranged |
| `Provenance.WrittenReadsBack` | scripts/e2ee-evidence/verify-provenance.ts:112-122 | what a checksum tool writes for valid, distinctly named artifacts reads back as their map |
| `Provenance.CountedInclusion` | scripts/e2ee-evidence/verify-provenance.ts:58-61 | for distinct names, equal size and one-way inclusion together mean that the maps are equal |
| `Provenance.SubjectExactly` | scripts/e2ee-evidence/verify-provenance.ts:32-91 | a subject is accepted if and only if its names are safe, its files have their digests, its sidecar's lines are its declared artifacts' and it is attested |
| `Provenance.VerifySubject` | scripts/e2ee-evidence/verify-provenance.ts:36-91 | the checks in order, with the loop that fills the expected map, give the subject's result |
| `Provenance.VerifySubjects` | scripts/e2ee-evidence/verify-provenance.ts:28-92 | the loop that deletes from the set of required categories gives the loop's result |
| `Provenance.SubjectsExactly` | scripts/e2ee-evidence/verify-provenance.ts:28-92 | the loop finishes if and only if the subjects' categories are the four required ones in some order and every subject holds |
| `Provenance.VerifyProvenance` | scripts/e2ee-evidence/verify-provenance.ts:11-92 | the header's checks in order, then the loop |
| `Provenance.VerifiedExactly` | scripts/e2ee-evidence/verify-provenance.ts:11-92 | the verifier finishes if and only if schema, repository, workflow, commit and trusted root are as required, the categories are the four in some order and every subject holds |
| `ProvenanceVerdict.LinesExactly` | scripts/e2ee-evidence/verify-provenance.ts:112-122 | the lines of a sidecar are its text without the white space around it, split at line feeds |
| `JsonText.WhiteSpaceExactly` | scripts/e2ee-evidence/verify-provenance.ts:114-114 | the white space that is trimmed, unit by unit |
| `ProvenanceVerdict.SubjectHoldsExactly` | scripts/e2ee-evidence/verify-provenance.ts:32-91 | what a subject that holds satisfies, written out: safe names, the files' digests, the declared artifacts and the sidecar's lines the same, and a statement with a trusted timestamp, the SLSA predicate type and the sidecar by name and digest |
| `ProvenanceVerdict.FinishesExactly` | scripts/e2ee-evidence/verify-provenance.ts:11-92 | the verifier finishes if and only if the header is as required and the four categories each have one subject, which satisfies that |
| `Provenance.NoCategoryLeft` | scripts/e2ee-evidence/verify-provenance.ts:92-92 | the final check can never fail |
| `ReleaseManifests.VisitedSound` | scripts/h5-release-security.ts:115-130 | every file listed is one that its path leads to |
| `ReleaseManifests.VisitedComplete` | scripts/h5-release-security.ts:115-130 | every regular file that a path leads to is listed |
| `ReleaseManifests.VisitedDistinct` | scripts/h5-release-security.ts:115-130 | no path is listed twice |
| `ReleaseManifests.FileWalk.Visit` | scripts/h5-release-security.ts:117-128 | the recursive walk pushes exactly those files, or fails at the first link or special entry |
| `ReleaseManifests.FilesOf` | scripts/h5-release-security.ts:115-130 | the walk followed by the sort |
| `ReleaseManifests.PathTextInjective` | scripts/h5-release-security.ts:135-135 | different paths have different texts |
| `ReleaseManifests.AssetPins` | scripts/h5-release-security.ts:132-139 | under a collision-free hash an asset entry determines the path and the bytes |
| `ReleaseManifests.InventoryPins` | scripts/h5-release-security.ts:339-344 | inventories with the same text list the same files with the same bytes in the same order |
| `ReleaseManifests.AttestationPins` | scripts/h5-release-security.ts:279-344 | two directories that pass against one attestation hold exactly the same files with the same bytes, manifest included |
| `ReleaseManifests.FinalizeWrites` | scripts/h5-release-security.ts:235-277 | a successful finalize leaves every file but the headers and the manifest as it was, and issues an attestation that the directory passes against |
| `ReleaseManifests.FinalizePins` | scripts/h5-release-security.ts:235-344 | whatever is added, removed or edited after finalize, and whatever has become of commit, lockfile and policy, passing against its attestation means holding exactly the files it left |
| `ReleaseManifests.WriteRootFiles` | scripts/h5-release-security.ts:243-243 | writing a file changes that file and no other |
| `ReleaseContents.ReferenceExactly` | scripts/h5-release-security.ts:361-362 | at a place of the entry page a reference is found if and only if `src=` or `href=`, a quote, a slash, at least one unit more without quote, question mark or number sign, and a quote stand there |
| `ReleaseSearches.FoundExactly` | scripts/h5-release-security.ts:361-362 | the search from match to match finds exactly the references that stand on the entry page where the match before has ended |
| `ReleaseSearches.MapNamedExactly` | scripts/h5-release-security.ts:354-355 | a file names a source map if and only if the mark stands somewhere in it with an equals sign behind it and any white space |
| `ReleaseSearches.AcceptableExactly` | scripts/h5-release-security.ts:345-371 | the built files are accepted if and only if none ends in .map or, being a page, style or script, names a source map, the scripts contain both addresses, and the last index.html has references, all of them to files below the base path |
| `ReleaseContents.GatherExactly` | scripts/h5-release-security.ts:345-357 | the loop over the assets objects exactly to source maps and references to them, and otherwise has the scripts' texts in order and the entry page's |
| `ReleaseContents.AcceptedExactly` | scripts/h5-release-security.ts:345-371 | the built files are accepted if and only if none is or names a source map, the scripts contain both endpoints, and the entry page refers to something and only to assets below the base path |
| `ReleaseContents.CheckBuilt` | scripts/h5-release-security.ts:345-371 | the loop with its two texts and the searches after it compute that acceptance, or the first objection |
| `ReleaseManifests.Release.Check` | scripts/h5-release-security.ts:279-371 | the checks in order over the directory and the attestation, the searches in the built files last, give the check's result |
| `ReleaseVerdict.AssetsExactly` | scripts/h5-release-security.ts:115-139 | the files listed are exactly those that some path leads to, the manifest apart, each once, in the order of their path texts |
| `ReleaseVerdict.PathTextExactly` | scripts/h5-release-security.ts:135-135 | a path's text is its names with slashes between |
| `ReleaseVerdict.InventoryTextExactly` | scripts/h5-release-security.ts:132-139 | the inventory's JSON text, written out entry by entry |
| `ReleaseVerdict.AcceptsExactly` | scripts/h5-release-security.ts:279-371 | on every directory: the check accepts if and only if the manifest can be read, is of the commit asked for and of the attestation's, has the attested digest, is bound to the lockfile, the headers have its digest and are accepted, there are only files and directories, the inventory is its text, and the contents are acceptable |
| `ReleaseManifests.Release.FinalizeRelease` | scripts/h5-release-security.ts:235-277 | headers written, inventory taken, manifest written, checked, attested and checked again; a finalize that fails issues no attestation |
| `ReleaseOrder.PassesInAnyOrderExactly` | scripts/h5-release-security.ts:129-129 | a directory that passes keeps passing however the file system lists it if and only if no two asset paths tie |
| `ReleaseOrder.PassesExactly` | scripts/h5-release-security.ts:279-344 | without ties, a directory passes against an attestation if and only if it holds the files of the one it was issued for and nothing else but directories |
| `ReleaseOrder.ReversalFails` | scripts/h5-release-security.ts:279-344 | with two tied assets, the check refuses the very same files listed backwards |
| `ReleaseFinalizing.FinalizeSucceedsExactly` | scripts/h5-release-security.ts:235-371 | finalize succeeds if and only if there are only files and directories, no directory has a name it writes, the manifest it writes reads back as written, and neither manifest, headers nor built files meet an objection |
| `ReleaseExample.UnchangedAndRefused` | scripts/h5-release-security.ts:235-371 | a concrete release, an entry page, its script with both endpoints and two files with canonically equivalent names, on which finalize succeeds and which passes, searches included, and whose unchanged files no longer pass when listed backwards |
| `StableSorts.SortStable` | scripts/h5-release-security.ts:129-129 | the sort keeps the order of elements it need not exchange |
| `StableSorts.OrderShows` | scripts/e2ee-evidence/contract.ts:20-20 | sequences that differ in the order of two tied elements sort differently |
| `Orders.SortForgetsOrder` | e2ee-core/src/session.rs:251-251 | sorting elements without ties forgets the order they came in |

## Left out

- Refinement.RunsAgree: commands with 255 arguments or more are excluded, because a request frame counts its fields in one byte and no client can write such a frame.
- Envelopes.DecodeEncoded: is stated for the envelopes that `try_new` and `decode` make; the fields are private, so there are no others.
- Responses.ExecutionRecovered: assumes of the library that key packages, signatures, digests, plaintexts and, for a group loaded from a state that fits the limit, the contents of its leaves together stay below 2^32 bytes, and error details 256 KiB below that; their real lengths are not known here.
- Provenance.VerifyProvenance: the manifest is given parsed; the exact key lists and JSON types of its members are not modelled; file reads, UTF-8 decoding, SHA-256 and the attestation tool are inputs.
- Provenance.VerifiedExactly: likewise says nothing of key lists and JSON types.
- ProvenanceVerdict.FinishesExactly: likewise.
- SupplyChain.ValidExactly: exceptions are given parsed; the check of their field names and of their type is not modelled, because a parsed exception has these fields and one of the two types.
- SupplyChain.Gate.ValidateExceptions: likewise.
- SupplyChain.Gate.Run: reports, SBOMs and lockfiles are given parsed; the check of an exception's field names and type, the five lockfile parsers, `parseFloat` of severities, and the digests and time stamp written into the summary are not modelled.
- SupplyChain.CoverageExact: a package's and an exception's members are taken to be strings, as the types declare; a JSON number in their place is coerced by the source.
- Expiry.QuotientIsDays: is over the reals; the source's floating-point quotient is exact here, since both operands are integers below 2^53 and the quotient is an integer.
- CanonicalJson.PrinterIsCanonical: covers the values JSON can express, a number by its shortest decimal text; `undefined` members and non-finite numbers, which no parsed file has, are not values of the model.
- EvidenceScan.AbsentExactly: the five regular expressions are one arbitrary predicate on texts.
- ReleaseManifests.Release.Check: the schema, lockfile, endpoint and base-path checks and the header policy are arbitrary functions of the manifest and the headers; SHA-256, UTF-8 decoding and the parsing of the manifest are arbitrary functions too.
- ReleaseVerdict.AcceptsExactly: likewise.
- ReleaseManifests.Release.FinalizeRelease: the rendering of headers and manifest is an arbitrary input; the endpoints' own checks and the scan of the Vue sources for inline styles, which come before it writes anything, are not modelled.
- ReleaseFinalizing.FinalizeSucceedsExactly: likewise is about what happens from the writing of the headers on.
- ReleaseExample.UnchangedAndRefused: its hash spells the bytes out, so that it has no collisions, and its digests are not 64 hexadecimal digits; its two-byte headers stand for the rendered policy, which the model takes as given.
- ReleaseManifests.FinalizeWrites: a directory is a value that is replaced as a whole; concurrent changes during one run are not modelled, nor is the file system listing a directory differently within one finalize.
- GroupRuns.DevicesConverge: the delivery service's rule of one commit per epoch is an assumption; `Forks.ForkExactly` says what happens without it.
- OpenMLS, key generation, signatures and SHA-256 are arbitrary functions; what the random generator yields to a call is a parameter of it. Epochs are natural numbers, written out as eight bytes, which say them as long as they stay below 2^64.
- The `checked_add` failures in the offset arithmetic cannot be reached with a 64-bit `usize`, because offsets stay below 2^33, and have no branch in the model.
- The errors of a poisoned storage lock, and the locks themselves.
- The functions exported to C, raw pointers and the zeroing of buffers.
- The remaining shape checks of `sanitize.ts` and `verify.ts`, long lists of one-branch facts.
- Routes, start-up wiring and user interfaces of the other applications.
