# Verified model of svmscope's state store and of the algorithms around it

svmscope replays Solana transactions on reconstructed state. What it reconstructs
from is only worth as much as the code that records it, so this project models that
code in Dafny and proves what it keeps, function by function and over whole runs.

The centre is the record store (`src/records.rs`): every account's history is an
append-only byte log of full snapshots, binary diffs and absences, behind an
in-memory index, a cache of newest-state digests, merged coverage ranges and a list
of polling rounds. The class `RecordStore.LogStore` has those fields and carries a
ghost `book`, one slot-ordered list of versions per account. Its `Valid()` says that
every log decodes to exactly its list, that the index is exactly the parse of the
bytes, and that every cached digest is the newest version's. Each method's contract
says what it does to the list and nothing else, and the laws of lookups, retention
(`RetentionLaws`), balance marks (`Marks`), imports and exports (`Exchange`), rounds
(`Rounds`), polling (`Poll`) and claims of exactness (`Claims`) are then proved about the list.

Seven smaller cores refine or preserve something simple in the same way:

| modules | core | what it must agree with |
|---|---|---|
| `Idl*`, `IxArgs` | Borsh encoder, IDL field walker, instruction arguments | each other: walking an encoded value shows that value; and a bound on any walk |
| `Lift*`, `Writability` | compiling lifted calls into a v0 message | the runtime's own reading of keys, privileges and lookup tables |
| `Bundle*` | resuming a bundle from its cached unedited run | replaying from step zero |
| `HistoryWalks`, `HistoryLaws` | paged history walk under a call budget | one filter over the whole ledger |
| `WindowSearch`, `WindowPlan`, `HistoryStreams` | widening windows over the change stream | one search of the whole range, by the planned calls |
| `Profile`, `ProfileLaws`, `FrameCompute`, `FrameSplit` | instruction and compute attribution | conservation over the trace and the spans |
| `Compute*` | compute units per program | the metadata total |

Code the original runs step by step is a method or a class here, proved against a
specification function or predicate; the properties are lemmas about those.
`dafny verify dfyconfig.toml` checks the whole project.

## What turned out not to hold, and exactly when it does

- A record written reads back if and only if its payload is under 2^32 bytes: the
  length field is a truncating cast (`Chain.RecordReadsBack`).
- A torn tail is ignored but not removed when a store opens, and the next record goes
  after it. The file then parses back to the index in memory if and only if there was
  no tail; with one, the next opening has no record where that one was written
  (`TornTail.AppendAfterTear`, `TornTail.OneByteHidesARecord`).
- Thinning, merging and exporting re-encode versions without the mark of an inferred
  balance, so one can read back as observed (`Marks.ThinningForgets`,
  `Marks.MergingForgets`). A thinning keeps the promise of `Version::balance_known` if
  and only if it drops nothing or every version it keeps was observed; an import if and
  only if it appends, or what it re-encodes was observed; an export if and only if what
  it carries was observed (`Marks.ThinKeepsMarksIff`, `Marks.ImportKeepsMarksIff`,
  `Marks.ExportKeepsMarksIff`).
- A round is noted for every chunk of accounts, so slots repeat within a round and can
  step back. A slot between two linked rounds is then covered if and only if it lies so
  between rounds newer than all before them (`Rounds.CoveredIffBridged`,
  `Rounds.SteppingBackIsNotCovered`).
- `poll_once` returns how many states differed, not how many versions were recorded. The
  two are the same if and only if no state that differed came at or before its account's
  newest slot (`Poll.CountIffNoneRefused`).
- A version is claimed exact at a target because a round at or after it saw no change.
  But any chunk's round is taken, and it may never have seen the account
  (`Claims.AnotherChunksRound`). The claims about an account are right if and only if,
  after every held round from its first version on, it was next seen unchanged
  (`Claims.ClaimsRightIff`), which is so when every answer carries it
  (`Claims.OneChunkIsRight`).
- Recording only changes, by digest, keeps every lookup faithful if and only if no
  observed state collides with the newest recorded one and none that differs comes at or
  before its slot, leaving out observations with no slot of their own
  (`Poll.AnsweredIff`, `Poll.CollisionMisleads`, `Poll.LateIsDropped`).
- A chain in a pack is appended as bytes, undecoded, when it only adds newer versions.
  The log decodes afterwards if and only if the chain does, walked from the newest state
  there was (`BrokenChains.AppendedDecodesIff`, `BrokenChains.DiffUponNothing`).
- The history walk's `reached_end` proves nothing once `max` entries were collected:
  the walk finds the same in a ledger with one more, older entry, and its flags are the
  same too if and only if that entry does not fill the last page read
  (`HistoryLaws.FullWalkSaysNothing`, `HistoryLaws.EndFlagCanMislead`). With room to
  spare it can be trusted, and is set exactly when it can be
  (`HistoryLaws.NothingMissing`, `HistoryLaws.EndReachedIff`).
- Exclusive compute sums to what the spans under no reporting span used if and only if
  no reporting span's children exceed it, since the subtraction saturates
  (`FrameCompute.ExclusiveTelescopes`, `FrameCompute.ChildrenCanExceed`).

Where the code and its comments differ the model follows the code: `kept_slots` keeps
the newest version before the retention window although the tests' `thinned` does not,
and the last snapshot of a bundle run keeps the last step's own world.

## What is taken as given

- Calls whose code is not part of this model are parameters: compression, UTF-8
  validity and the state digest (`StateCodec.Foreign`, with `StateCodec.Sound` asking
  that inflating undoes deflating and `StateCodec.SoundIsPossible` showing that this
  can be met), text and base58 (`Idl.Texts`, likewise `Idl.FaithfulIsPossible`), the JSON readings of floats and blobs
  (`IdlEncode.Opaque`), the SVM (`BundleSteps.Svm`, any deterministic function of a
  world and its edits), the change stream's contents and which calls to it fail
  (`HistoryStreams.HistoryStream`), the ledger (`HistoryWalks.BudgetedLedger`).
- A file is the bytes last appended or replaced, and nothing else writes it.

## Model

| member | source | states |
|---|---|---|
| StateCodec.FullRoundTrip | src/records.rs:217-236 | A full snapshot decodes to the state it was encoded from, for any owner whose length fits 32 bits; under the two-gigabyte limit its payload length does too |
| StateCodec.ChangedRanges | src/records.rs:241-262 | The two-cursor scan finds the same ranges as joining differences byte by byte |
| StateCodec.RangesAreSpaced | src/records.rs:239-262 | Changed ranges are non-empty, ascending, in bounds, and at least 8 bytes apart |
| StateCodec.RangesAreTight | src/records.rs:239-262 | No range starts or ends with an unchanged byte |
| StateCodec.OutsideRangesAgrees | src/records.rs:239-262 | Outside the ranges old and new data agree |
| StateCodec.RangesRebuild | src/records.rs:239-309 | Writing the changed ranges of the new data over the old gives the new data |
| DiffCodec.WriteDiff | src/records.rs:264-285 | The range-by-range writer produces the diff of the specification, or nothing when it is not worth it |
| DiffCodec.ReadDiff | src/records.rs:287-309 | The range-by-range reader agrees with the specification on every payload, error for error |
| StateCodec.DiffRoundTrip | src/records.rs:264-309 | A produced diff applied to its base gives the new state, for every owner, balance and data of 32-bit length; under the two-gigabyte limit its payload length fits 32 bits |
| Chain.IndexOf | src/records.rs:570-590 | The parse of any bytes is the index of their complete records, stopping at the first incomplete one |
| Chain.IndexIsUnique | src/records.rs:570-590 | Bytes have one index: nothing but the parse satisfies it |
| Chain.IndexOfConcat | src/records.rs:697-721 | Appending to a log that ends cleanly appends the shifted index of what was appended |
| Chain.RecordReadsBack | src/records.rs:311-317 | A written record reads back exactly when its payload is under 2^32 bytes |
| Chain.NextDecodes | src/records.rs:417-441 | Whatever kind the writer picks, stepping from the previous state over the record gives the new state; a diff is picked only within 50 of a full one |
| Chain.AppendVersion | src/records.rs:1042-1102 | Appending a newer version keeps the log a strictly slot-increasing chain whose every diff has a base, now one version longer |
| Chain.AppendChain | src/records.rs:697-721 | Appending a self-contained newer chain as bytes concatenates the versions |
| ChainIo.ChainWriter.Push | src/records.rs:417-441 | The chain written so far stands for the versions pushed so far, marks of unknown balances dropped |
| ChainIo.VersionWalker.Next | src/records.rs:375-396 | One step of the walker: the next slot and state, the end, or the decoding error |
| ChainIo.CopyVersions | src/records.rs:322-349 | One pass over any bytes with one state in memory: the first record that does not decode is the error returned, and of a log exactly the picked versions are re-encoded |
| ChainIo.MergeChains | src/records.rs:953-989 | The two-walker loop fails exactly when one of the chains does not decode, and with that error; of two logs it writes the slot-keyed merge, the version already here winning a tie, and counts exactly the new slots |
| Readback.ReadVersion | src/records.rs:735-775 | The windowed read of a chain's bytes gives what replaying the file from the last full record gives, errors included |
| Readback.ShortReplays | src/records.rs:748-769 | No lookup replays more than 50 diffs |
| Readback.ReadBackOfLog | src/records.rs:735-775 | Reading any log back at any slot is the plain lookup over its versions |
| Timeline.LookupAnswers | src/records.rs:735-747 | The lookup is the newest version at or before the slot |
| Timeline.AnswerIsLookup | src/records.rs:735-747 | And nothing else is: the answer is unique |
| Retention.KeptSlots | src/records.rs:461-492 | The one pass with its anchor keeps exactly the slots that survive retention, stated without a pass |
| RetentionLaws.ThinnedLookup | src/records.rs:461-492 | A lookup reads the same after thinning exactly when the version that answers it survives |
| RetentionLaws.DenseLookupsUnchanged | src/records.rs:461-492 | Thinning never changes a lookup in the dense tier |
| RetentionLaws.BucketEndLookupsUnchanged | src/records.rs:461-492 | Nor at the last slot of any 75-slot bucket inside retention, however old the account's only version |
| RetentionLaws.NewestSurvives | src/records.rs:461-492 | The newest version always survives |
| RetentionLaws.ThinIsIdempotent | src/records.rs:808-838 | Thinning twice at one slot drops nothing the second time |
| RetentionLaws.LaterThinningDecides | src/records.rs:808-838 | From the later cutoff on, a slot survives two thinnings just when it survives the later one |
| RetentionLaws.ThinThenThin | src/records.rs:808-838 | Thinning at n1 then n2 keeps, from the cutoff of n2 on, exactly what thinning at n2 alone keeps |
| Marks.ThinKeepsMarksIff | src/records.rs:400-441 | Thinning loses no unknown-balance mark exactly when it drops nothing or every version it keeps was observed |
| Marks.ImportKeepsMarksIff | src/records.rs:943-989 | An import loses none exactly when it takes the append path, or every version here was observed, or was observed alike there, and every version taken in at a new slot was observed |
| Marks.ExportKeepsMarksIff | src/records.rs:861-888 | An export loses none exactly when every version it carries was observed |
| Marks.ThinningForgets | src/records.rs:400-441 | A log of three versions whose inferred balance reads back as observed once it is thinned |
| Marks.MergingForgets | src/records.rs:943-989 | A log of one inferred balance that reads back as observed once an older absence is merged in |
| Coverage.MergeSpans | src/records.rs:906-921 | Sorting and absorbing gives the least ascending coverage, gaps over 300 slots, that spans every range |
| Coverage.LeastIsUnique | src/records.rs:906-921 | There is one such coverage |
| Coverage.LeastOfMembers | src/records.rs:906-921 | It depends on neither the order nor the repetition of the ranges |
| Coverage.LeastInBatches | src/records.rs:906-921 | Nor on batching: merging into a merged part is merging all at once |
| Coverage.NormalIsItsOwnMerge | src/records.rs:906-921 | Merging a coverage into itself changes nothing |
| Rounds.NotingIsMerging | src/records.rs:1170-1176 | Noting a newer round is merging in the one-slot range at it |
| Rounds.FreshIff | src/records.rs:1158-1176 | The rounds that count are exactly those newer than every one before them |
| Rounds.OnlyFreshCount | src/records.rs:1153-1177 | Over any run of rounds, repeated and stepping back ones change neither coverage nor rounds |
| Rounds.CoveredIffBridged | src/records.rs:1153-1197 | After any run of rounds, upon any coverage, a slot is covered exactly when it was before or lies between rounds that count, linked by steps of at most 300, the first of them from where the coverage ended |
| Rounds.SteppingBackIsNotCovered | src/records.rs:1170-1176 | Two rounds, the second older, whose slot lies between rounds and is not covered |
| Rounds.RoundsHeld | src/records.rs:1153-1169 | After any run of rounds, upon any held before, exactly the ones that count and lie in the newest one's dense window are held |
| Rounds.NotedInTwo | src/records.rs:1153-1177 | Rounds noted in two runs leave what they leave in one, so that polls follow one another |
| Rounds.RoundIn | src/records.rs:1016-1025 | The binary search answers whether a held round lies in the interval |
| Packs.EntryReads | src/records.rs:861-902 | A pack entry reads back its name and body and leaves the rest |
| Packs.CutPack | src/records.rs:929-933 | A pack cut at any byte is its first entries whole and then bytes no entry can be read from |
| Packs.ReadSpans | src/records.rs:934-942 | A coverage entry reads back the ranges it was written from, whatever is left over past the last whole one |
| Packs.SpansOfAny | src/records.rs:934-942 | Any body is such ranges and fewer than sixteen bytes left over |
| RecordStore.LogStore.Open | src/records.rs:625-673 | A store opened over logs indexes every one exactly as its bytes parse |
| RecordStore.LogStore.VersionAt | src/records.rs:735-775 | At any moment the bytes, the index and the replay answer any lookup as the plain list of versions does |
| RecordStore.LogStore.NextVersionSlotAfter | src/records.rs:1008-1014 | The least recorded slot after the given one, or none when there is none |
| RecordStore.LogStore.RecordWithBalance | src/records.rs:1035-1103 | Recording extends one account's list by the version, or refuses it when it is not newer; its log only grows at the end, no other log changes, and bytes, index and digests stay in step |
| RecordStore.LogStore.LatestIs | src/records.rs:1105-1128 | The cached digest answers as the newest version's digest would, whether or not it was cached |
| RecordStore.LogStore.ThinAccount | src/records.rs:808-838 | Rewriting one account's log drops what retention drops, counts it, and touches no other log; a log with nothing to drop is not rewritten |
| RecordStore.LogStore.Thin | src/records.rs:808-844 | Over the whole store, with the coverage trimmed to the retention cutoff |
| RecordStore.LogStore.RewriteBytes | src/records.rs:791-802 | A replaced log is re-indexed and its digest forgotten |
| RecordStore.LogStore.AppendChainBytes | src/records.rs:697-721 | The byte-append fast path appends exactly the chain's bytes and extends the list by its versions |
| RecordStore.LogStore.ExportSince | src/records.rs:861-902 | A pack holds, for each account with versions after the slot, one self-contained chain of exactly those, and the clipped coverage |
| RecordStore.LogStore.ImportChain | src/records.rs:943-989 | Fast path or merge path, the account ends with the same import, and the count is what was added |
| RecordStore.LogStore.MergeCoverage | src/records.rs:906-921 | The store's coverage becomes the least one spanning both |
| RecordStore.LogStore.ImportPack | src/records.rs:926-992 | A pack is taken in entry by entry; one that cannot be read is the error returned, with all before it taken in |
| RecordStore.LogStore.NoteRound | src/records.rs:1153-1177 | Noting a round updates rounds and coverage as the specification says and keeps both ordered |
| RecordStore.LogStore.Covers | src/records.rs:1188-1197 | Covered means in a span and in the dense window of the newest |
| StoreSpec.ImportIsMerge | src/records.rs:943-989 | The two import paths agree on every slot and state |
| StoreSpec.ImportIsUnion | src/records.rs:943-989 | An import is a slot-keyed union in which what is already here stands |
| StoreSpec.ExportThenImport | src/records.rs:861-989 | Importing one account's versions after a slot adds exactly those at slots not recorded here |
| Exchange.ExportedUnion | src/records.rs:861-989 | Importing a pack another store exported after a slot leaves every account, carried or not, as the union of what was here and what was recorded there after the slot at new slots |
| Exchange.ExportIsDistinct | src/records.rs:861-888 | An exported pack carries each account at most once, each chain in slot order |
| Exchange.ExportedSpans | src/records.rs:889-900 | The ranges an exported pack carries are the store's, clipped |
| StoreSpec.RunKeepsOrder | src/records.rs:808-1103 | Over any run of records, thinnings and imports every account's versions stay in strict slot order |
| StoreRuns.MergeLookup | src/records.rs:953-989 | Looking up in a merge is looking up on both sides and taking the newer answer, what is here standing on a tie |
| StoreRuns.ImportLookup | src/records.rs:926-992 | So an import answers every lookup as the newer of the two sides would, by either path |
| StoreRuns.ThinningIsUnseen | src/records.rs:804-844 | Over any run of records, imports and thinnings, every lookup in the dense tier answers as if nothing had ever been thinned |
| StoreLaws.Perform | src/records.rs:623-1103 | Over any run of records, thinnings and imports the bytes, the index and the digests stay in step with the plain list |
| StoreLaws.RecordThenLookup | src/records.rs:1035-1103 | A recorded version is what every lookup from its slot on returns, balance mark included; older slots and other accounts are unchanged |
| Exchange.ExportIsImportable | src/records.rs:861-902 | Every entry an export writes can be imported, while its body fits 32 bits |
| Exchange.ClippedContains | src/records.rs:889-900 | The exported coverage is exactly the covered slots after the given one |
| Exchange.ReimportAddsNothing | src/records.rs:926-992 | Importing the same pack again adds no version, however often it carries an account |
| BrokenChains.AppendedDecodesIff | src/records.rs:697-721 | A log a chain was appended to as bytes decodes exactly when the chain does, walked from the newest state there was |
| BrokenChains.AppendedAloneIff | src/records.rs:697-721 | A chain that decodes on its own leaves a log that does, and upon a log with no newest state only such a chain does |
| BrokenChains.DiffUponNothing | src/records.rs:943-951 | A one-record chain that is indexed and appended, and leaves a log that does not decode |
| TornTail.TornLogReads | src/records.rs:570-590 | A torn tail is indexed and read as if it were not there |
| TornTail.CrashAnywhere | src/records.rs:570-590 | Cut at any byte, a log reads as its whole records and nothing else |
| TornTail.AppendAfterTear | src/records.rs:1078-1096 | After a record is appended to a file with a torn tail, whatever the next open parses keeps the records before the tear; it is the index in memory exactly when there was no tail, and otherwise no record of it starts where the new one was written |
| TornTail.OneByteHidesARecord | src/records.rs:570-590 | One byte left by a crash and a record appended after it parse to an empty log |
| Poll.RecordChunk | src/records.rs:1227-1247 | One chunk of a round: note the round, record the accounts whose state differs from the newest, and return how many differed |
| Poll.PollOnce | src/records.rs:1206-1250 | A whole round, chunk by chunk, leaves the store as observing each account in turn would, its rounds and coverage as noting each chunk's slot would, and returns how many states differed |
| Poll.CountIffNoneRefused | src/records.rs:1243-1246 | The count is the number of versions added exactly when no differing state came at or before its account's newest slot, and otherwise more |
| Poll.PollAllOf | src/records.rs:1206-1250 | What a run of rounds leaves of an account depends on what was seen of that account alone |
| Poll.AnsweredIff | src/records.rs:1206-1250 | Though only changes are written and late ones dropped, every lookup returns what was last observed, exactly when no observation that still has slots of its own collided or came too late; slots may repeat and step back |
| Poll.LateIsDropped | src/records.rs:1035-1060 | Two states of one slot, of which every lookup answers with the first |
| Poll.FaithfulIffNoCollision | src/records.rs:1105-1128 | For observations in time order, every lookup from one up to the next returns the observed state, exactly when no digest collided |
| Poll.InjectiveDigestIsFaithful | src/records.rs:445-455 | So with a digest that tells states apart, always |
| Poll.CollisionMisleads | src/records.rs:1105-1128 | An account seen absent and then with a state of the same digest is still answered as absent |
| Poll.RoundProvesHeld | src/scope.rs:1617-1631 | An observation of the account itself, at or after the target and before the next version, saw the state held at the target |
| Claims.ExactAt | src/scope.rs:1612-1648 | A version is claimed exact at a target exactly when the target is covered and some held round lies at or after it, up to which nothing newer was recorded |
| Claims.ProvenIffPinned | src/scope.rs:1617-1631 | What was seen of an account tells its state at a slot, in every history without a change that flipped back unseen, exactly when the observations around the slot both saw it |
| Claims.NeverWrongIff | src/scope.rs:1632-1648 | With covered rounds, every claim is so told exactly when, after each held round from the first version on, the account was next seen unchanged |
| Claims.ClaimsRightIff | src/scope.rs:1632-1648 | Over any run of polls that saw an account in time order without a collision, no claim about it is wrong exactly when, after each round held from its first version on, it was next seen unchanged |
| Claims.OneChunkIsRight | src/records.rs:1214-1227 | So when every answer carries the account, as when all that is watched fits one chunk, no claim about it is wrong |
| Claims.AnotherChunksRound | src/records.rs:1214-1227 | Three answers of two chunks: a version is claimed exact at a slot between them by a round that never saw the account, which may hold another state there |
| Idl.FaithfulIsPossible | src/idl_encode.rs:43-153 | What the encoder asks of text, keys and number parsing can be met |
| IdlEncode.IntBytesU | src/idl_encode.rs:169-178 | Bytes come out exactly when the number fits the width |
| IdlEncode.IntBytesI | src/idl_encode.rs:180-192 | Two's-complement bytes come out exactly when the number fits the signed width |
| IdlEncode.FindVariant | src/idl_encode.rs:288-292 | The first variant of that name, or none |
| IdlEncoder.Encoder.Value | src/idl_encode.rs:43-153 | The buffer grows by exactly the value's encoding or the value is refused, and what was there before stands |
| IdlEncoder.Encoder.Fields | src/idl_encode.rs:238-263 | The same for a list of named fields or arguments, in declaration order |
| IdlEncoder.Encoder.Variant | src/idl_encode.rs:265-344 | The same for an enum: index byte, then the named or tuple payload |
| IdlEncoder.Encoder.DefinedType | src/idl_encode.rs:210-236 | The same for a defined struct or enum |
| IdlEncoder.Encoder.WriteLength | src/idl_encode.rs:361-366 | A Borsh length, refused past 32 bits |
| IdlWalk.Walker.WalkFields | src/idl.rs:625-651 | The in-place walk of cursor, fields and budget is the walk of the specification |
| IdlWalk.Walker.WalkField | src/idl.rs:653-868 | The same for one field of any type, on any bytes |
| IdlWalk.Walker.EnumField | src/idl.rs:671-723 | The same for an enum: the tag's field, then the payload of the variant it names |
| IdlBounds.WalkIsBounded | src/idl.rs:587-868 | On any type environment, cyclic or not, and any bytes: at most 20,000 visits and fields, the cursor stays in the data, and fields ascend, do not overlap and lie inside it |
| IdlRoundTrip.OneWalks | src/idl.rs:625-868 | Walking the bytes of a typed value, wherever they lie, succeeds, stops after them, and reports that value |
| IdlNumbers.SignExtends | src/idl.rs:554-579 | Sign extension gives a signed number back from its two's complement |
| IdlShared.ElaborateStands | src/idl_encode.rs:43-344 | A value both sides can follow is well typed and encodes to the bytes of its typed tree |
| IdlLaws.EncodeThenWalk | src/idl_encode.rs:43-344 | Encoding such a value and walking the bytes succeeds, advances by exactly the encoded length, and shows every leaf as the value has it |
| IdlLaws.EncodeThenWalkFields | src/idl_encode.rs:16-41 | The same for all the fields of an account or arguments of an instruction |
| IxArgs.IxArgSpan | src/idl.rs:925-935 | The loop finds the first argument of that name behind fixed-size ones |
| IxArgs.SpanHoldsArgument | src/idl.rs:925-935 | The span found holds exactly the bytes that argument encodes to |
| IxArgs.DecodeIxArgs | src/idl.rs:468-491 | The loop reads arguments up to the first without a fixed size or past the data |
| IxArgs.EncodeThenDecodeArgs | src/idl.rs:468-491 | Decoding an encoded instruction shows the arguments it was encoded from, up to the first without a fixed size, behind an explicit or a derived discriminator |
| Lift.Flatten | src/lift.rs:319-397 | The loop over instructions flattens routers into their direct calls, or gives the first error |
| LiftLaws.LiftedCallsComeFrom | src/lift.rs:343-391 | A lifted call is an instruction that stayed, or a direct call a router made to another program, and names only original addresses |
| LiftLaws.RouterBecomesItsCalls | src/lift.rs:357-377 | A router becomes exactly its direct calls to other programs, each once and in order |
| LiftCompile.Privileges | src/lift.rs:261-279 | The signer and writable sets are the runtime's privileges, position by position |
| LiftCompile.PlaceAll | src/lift.rs:281-302 | The running counters place each loaded address at its table and index |
| LiftLoads.PlacesAreLoads | src/lift.rs:281-302 | Exactly the loaded addresses have a place, each where its table holds it |
| LiftCompile.FirstUsed | src/lift.rs:402-413 | Every address once, in order of first use |
| LiftCompile.SignerKeys | src/lift.rs:419-432 | The payer first, then writable signers, then read-only ones, each in order of first use |
| LiftCompile.OtherKeys | src/lift.rs:435-450 | Each unsigned address goes to exactly its group |
| LiftLoads.SortIsStable | src/lift.rs:451-457 | Sorting by table ascends and keeps each table's order |
| LiftCompile.FillLookups | src/lift.rs:475-494 | Pushing indexes into the lookups and dropping empty ones gives the lookups of the specification |
| LiftLoads.DroppingShiftsNothing | src/lift.rs:494-494 | Dropping empty tables shifts no loaded address |
| LiftLoads.LookupsLoad | src/lift.rs:451-494 | The new lookups load exactly the sorted addresses, table by table |
| LiftCompile.Compile | src/lift.rs:399-521 | The compiler's passes produce the message of the specification, or the too-many-accounts error |
| LiftOrder.HeaderIsExact | src/lift.rs:508-513 | No count in the new header is cut short by its byte |
| LiftLaws.LiftedResolves | src/lift.rs:399-521 | Every compiled index resolves, through static keys, loaded writables and loaded readonlies, to the original address, and no address is listed twice |
| LiftLaws.LiftedKeepsPrivileges | src/lift.rs:399-521 | Every address keeps its signer and writable privilege under the new header; a called program that does not sign is static and read-only |
| LiftLaws.CompilesWhenFew | src/lift.rs:469-474 | Compilation fails exactly when the payer and the calls need more than 256 addresses |
| Writability.IsWritableAsTheRuntimeHasIt | src/reconstruct.rs:133-164 | The answer is the runtime's own privilege, and there is one exactly when the transaction names the address |
| BundleRuns.Bundle.ResumeAt | src/bundle.rs:929-952 | Wherever it picks up, the state and reports are those of replaying that many steps from zero |
| BundleRuns.Bundle.Drive | src/bundle.rs:958-1099 | Steps driven from a state leave the snapshots and reports of the step-by-step specification, or its first error |
| BundleRuns.Bundle.StepOnce | src/bundle.rs:980-1094 | One step with its cascade, whatever order the maps are gone through |
| BundleRuns.Bundle.Run | src/bundle.rs:809-844 | A run returns what replaying from zero returns, errors included, for any mode, edits and cache; the cache only ever holds the complete unedited run |
| BundleRuns.Bundle.Trace | src/bundle.rs:850-871 | A trace starts from the world replaying every earlier step from zero would give |
| BundleSteps.OverlayAll | src/bundle.rs:1053-1055 | Writing accounts over a world, in any order, overlays them all |
| BundlePlay.Resumes | src/bundle.rs:929-952 | A run picked up where another stopped is the longer run |
| BundlePlay.UneditedPrefix | src/bundle.rs:929-952 | Up to the first edited step an edited run is the unedited one |
| BundleLaws.ReportsBeforeTheEdit | src/bundle.rs:809-844 | Reports before the first edit are those of the unedited run |
| BundleEdges.FindEdges | src/bundle.rs:760-782 | The nested loops give the edges of the specification |
| BundleEdges.EdgesIff | src/bundle.rs:757-782 | The edges are exactly the changes a later step names, and always point forward |
| BundleSteps.CarryInto | src/bundle.rs:1060-1070 | Carrying accounts into a rebuilt world, in any order, overlays them and lists the divergences |
| BundleSteps.AdoptCreated | src/bundle.rs:1073-1088 | Accounts a step created and a later one names are loaded |
| BundleLaws.CarriedIsLoaded | src/bundle.rs:1034-1094 | In either mode each step enters with everything earlier steps wrote |
| BundleLaws.EntersWithLastWrite | src/bundle.rs:1034-1094 | And with the last write of it |
| BundleLaws.CarriedWasWritten | src/bundle.rs:1034-1037 | Nothing is carried that no step wrote |
| BundleLaws.DivergedIff | src/bundle.rs:1060-1070 | A divergence is reported exactly where the run crosses slots and the carried bytes differ from the rebuilt world |
| BundleLaws.CreatedIsLoaded | src/bundle.rs:1073-1088 | An account left by a step and named later is loaded when the next step starts |
| HistoryWalks.BudgetedLedger.Charge | src/reconstruct.rs:188-195 | Calls up to the cap pass, and every one past it is refused |
| HistoryWalks.ScanPage | src/reconstruct.rs:299-323 | One page of the walk collects what the specification wants of it and stops where it stops |
| HistoryWalks.BudgetedLedger.Walk | src/reconstruct.rs:270-346 | The paged walk is the one-pass specification, and fails exactly when it needs more pages than the budget has left; asked for none it still takes one entry of one page |
| HistoryLaws.WalkIsFilter | src/reconstruct.rs:267-346 | The mentions are the newest max successful entries before the cut and above the floor among the pages allowed, oldest first |
| HistoryLaws.NothingMissing | src/reconstruct.rs:324-336 | With fewer than max collected and the end reached, no wanted entry of the whole ledger is missing |
| HistoryLaws.EndReachedIff | src/reconstruct.rs:324-336 | With fewer than max collected, the end is reached exactly when the allowed pages hold a floor entry or more than the ledger |
| HistoryLaws.FullWalkSaysNothing | src/reconstruct.rs:318-336 | A walk that collected max finds the same in a ledger with one more, older entry, and is the same in its flags too exactly when that entry does not fill the last page read |
| HistoryLaws.EndFlagCanMislead | src/reconstruct.rs:318-336 | A two-entry ledger whose walk sets the end flag and misses a wanted entry |
| WindowSearch.CollectVersions | src/history.rs:373-409 | The map built from streamed blocks holds each account's last change before the slot |
| WindowSearch.LatestIsLast | src/history.rs:373-409 | The fold over changes is the change no later one follows, the later of two in one slot |
| WindowSearch.ServedLatest | src/history.rs:301-367 | What the stream serves of some accounts and slots tells their last change there |
| WindowSearch.LatestSplits | src/history.rs:198-230 | A range searched in two parts, the newer first, is the range searched whole |
| WindowPlan.ChunksAskForAll | src/history.rs:301-301 | The chunks of a range ask for every account once and in order, none for more than sixty |
| HistoryStreams.HistoryStream.LatestIn | src/history.rs:290-370 | A range makes exactly the calls of its chunks, in order, and answers all its accounts, or stops at the first call that fails |
| WindowPlan.PlanIsContiguous | src/history.rs:198-230 | Each planned window ends where the one before started, so they are contiguous and disjoint and go down; window i is at most first times 5 to the i wide |
| WindowPlan.PlanAsksForMissing | src/history.rs:198-230 | Each planned window asks exactly for the accounts with no change in the windows before it |
| WindowPlan.PlanGoesOn | src/history.rs:198-230 | The plan goes on to the floor, or to where nothing is missing |
| HistoryStreams.HistoryStream.LatestBeforeWindows | src/history.rs:198-230 | The calls made are those of the planned windows, in order, up to the first that fails; with no failed call the result is one search down to the floor, and after a failure what is returned is exactly the truth of the windows searched |
| HistoryStreams.HistoryStream.LatestBeforeSized | src/history.rs:237-272 | With no failed call, the calls are the planned ones of the small accounts and then of the large, and the result is one search; whatever failed, what is returned is true |
| Compute.TallyLines | src/compute.rs:66-91 | The log loop is the tally of the specification |
| Compute.OrderIsSeen | src/compute.rs:58-91 | Programs are listed once each, and exactly those that appear |
| Compute.InvokesCount | src/compute.rs:74-77 | Invocation counts count invocation lines |
| Compute.SbfSums | src/compute.rs:78-90 | Logged units are their sum, saturated at 64 bits |
| ComputeRows.Prices | src/compute.rs:93-108 | Known costs are assigned and summed, and the programs left are exactly those with no known cost |
| ComputeShares.Share | src/compute.rs:117-133 | Rounded-down shares never exceed the remainder, so the last never underflows; they sum to it, each off by less than one unit per program |
| ComputeRows.CuPerProgram | src/compute.rs:52-148 | Rows sum to the metadata total when some program is unpriced and the total exceeds what was priced, and to the priced amount otherwise; each program has its one row, in descending order |
| Profile.ProfileFrame | src/profile.rs:1093-1182 | The trace loop counts as the step-by-step specification does |
| Profile.AlignTo | src/profile.rs:1133-1146 | Realignment ends the stack in the function the program counter is in |
| ProfileLaws.CountedOnce | src/profile.rs:1147-1151 | Self counts and folded-stack counts both sum to the trace length |
| ProfileLaws.CountsToldByStacks | src/profile.rs:1147-1151 | A function's self count is the total of the stacks ending in it, its total count their sum weighted by how often each holds it |
| ProfileLaws.SelfWithinTotal | src/profile.rs:1192-1204 | No function has more to itself than in total |
| ProfileLaws.NoneRunUnentered | src/profile.rs:1128-1146 | No function has instructions of its own without having been entered, by a call or a realignment |
| ProfileLaws.SyscallsAreEvents | src/profile.rs:1155-1164 | Syscall counts and events tally |
| ProfileLaws.CallersStay | src/profile.rs:1131-1182 | While the stack is never shorter than a frame's own, that frame and its callers stay, through calls, exits and realignment |
| ProfileLaws.ReturnsToCaller | src/profile.rs:1165-1179 | A call and its matching exit give the caller its stack back |
| FrameCompute.Exclusive | src/profile.rs:487-501 | The stack pass leaves each span its own consumption less its direct children's |
| FrameCompute.ExclusiveTelescopes | src/profile.rs:487-501 | Exclusive values sum to what the spans that no reporting span called used, exactly when no reporting span's children exceed it, and to more otherwise |
| FrameCompute.ChildrenCanExceed | src/profile.rs:487-501 | Two spans, the callee logged at more than its caller, whose exclusive values sum to more than the transaction used |
| FrameSplit.SplitFrame | src/profile.rs:549-552 | The per-function split of the specification |
| FrameSplit.SplitLosesLittle | src/profile.rs:549-552 | A split by weights that add up to the whole never exceeds it and loses less than one unit per weight |
| FrameSplit.SelfsAddUp | src/profile.rs:1192-1206 | The functions' own instructions, in whatever order they are listed, add up to the map's sum |
| FrameSplit.ProfiledSplitLosesLittle | src/profile.rs:549-552 | The split of a profiled frame over its listed functions never exceeds the frame's compute and loses less than one unit per function |

## Left out

- ImportPack: a pack is any run of readable entries followed by bytes no entry can be read from; an entry whose chain does not decode from its own start, or whose ranges end before they begin, is not modelled; `BrokenChains` and `MergeChains` say what becomes of such a chain.
- ImportChain: for chains that decode from their own start, as every exported one does.
- AppendChainBytes: likewise.
- CopyVersions: what is written of bytes that decode but are no log, out of slot order say, is not stated.
- MergeChains: likewise.
- ClaimsRightIff: for stores that only poll; thinning, imports and versions taken from the stream are not part of it.
- MergeSpans: for ranges that do not end before they begin, as every range a store notes or merges is.
- Open: the constructor is stated for logs that end cleanly; `TornTail` states what a torn or cut log reads as.
- RecordChunk: decoding the RPC answer is left out; a chunk's slot and states are given.
- WalkField: labels of types without a fixed size and of unknown types are not modelled.
- Value: error texts and their paths are not modelled, only that a value is refused.
- EncodeThenWalk: stated for values whose tree fits the walk's depth, element and visit limits, which is where the walk stops by design.
- IxArgSpan: sizes are unbounded integers except for the checked addition, which is refused past 64 bits.
- Compile: data of instructions and the recent blockhash pass through unchanged; transaction size and serialization are not modelled.
- Flatten: instructions are given as their parsed indexes and decoded data; a malformed JSON shape reads as a missing part.
- Run: token balance changes, chain errors and other report fields that are copied or displayed are not modelled; neither are the lock and its poisoning.
- Trace: the trace itself is the SVM's; the world and the edits it starts from are what is modelled. `accounts_at` starts from the same world and is left out.
- Walk: a page call fails only by the budget; RPC failures are left out.
- LatestIn: API keys, back-off and retries decide whether a call fails and are not modelled further.
- CuPerProgram: stated where the products of the remainder and an invocation count stay below 2^64, past which the original overflows; tokenizing a log line is left out.
- ProfileFrame: names, shapes, labels and the ordering of the tables for display are left out.
- SplitFrame: the product is an unbounded integer; matching spans to frames by program and completion order is left out.
- Directory listing, watched-set and coverage text files, mutexes, I/O errors and the atomicity of rename.
- `Reconstructor` end to end: it depends on replay and state loading that are not part of this model, and its replay budget is checked before recursing and counted after, so it bounds no run by itself.
- RPC, HTTP and gRPC clients, polling threads, the SVM's internals, symbol matching, labels, formatting, the CLI and the web pages.
