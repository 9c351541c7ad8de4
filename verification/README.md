# NNRP Python SDK: verified model

This project models the logic of the NNRP Python SDK that has the most branching and state, and proves what that
logic promises. `dafny verify dfyconfig.toml` checks all of it.

## What is modelled

**Wire codec.** `wire`, `bits`, `alignment`, `header`, `packet`, `tile_index`, `tensor_section`, `tensor_body`,
`section_layout`, `inline_objects`, `record_tables`, `payload_spans`, `typed_frames`, `extension_frames`, `body` and
`metadata` hold the encoders and decoders of a packet body: four tile index encodings, tensor sections on 8-byte
boundaries, inline object regions that describe their own block sizes, and offset-table payload regions.
`record_positions` says at which byte of each record every field lies, which an encoder and a decoder that are only
inverse to each other would leave open. `submit`, `mixed_bodies` and `result_push`
hold the builders and the two validators and connect them: what a builder emits is accepted by the peer, and
decoding gives back what went in. `object_contract` says what the validators ask of a body, kind by kind and in
numbers. Encoders and decoders are separate definitions, as they are in the SDK.

**Streams.** `streams` defines the one reading of a byte string as packets. The TCP reader (`tcp`), the QUIC
connection (`quic`) and the WebSocket batch decoder (`websocket`) are proved to compute it, for every chunking and
every interleaving. `routing` splits the traffic into control, submit and result queues.

**Event pumps and operations.** `ledger` accounts for events: a run's native events are one sequence, a poll takes a
prefix of what is left, and several selective receivers share one queue. `server_session` and `client_session` are
the two sessions, `frame_table` the table from operation to submit frame, and `server_reply` the reply flag of a
server operation under concurrent calls.

**Fast forms.** `transport_selection` (over `sorting` and `sequences`) is the choice of a native transport, and
`selection_order` what the choice promises about probe results, costs and evidence, field by field;
`ordered_buffer` the heap with lazy deletion, `migration_monitor` the sliding window, `suppression` the bounded
insertion-ordered set, `recovery_ticket` the session ticket.

Code that computes a value is a function; code that loops or changes fields is a method or a class, and its contract
ties the result to a function whose properties are stated by lemmas. `Result` stands for a Python call that returns
or raises.

## What the proofs show about the code

Where the code does not keep a promise, a lemma or a contract says exactly when it does, and an input or a run of the
class shows that it can fail.

- A submit or result refused while packing has already taken its synthetic TCP stream id. Both sides number the packets
  of a class alike if and only if every packet written in the class went through its own call and no call of the class
  before it was refused (`Tcp.IdsAgree`); after a refusal, every later packet of the class has a higher id at its sender
  (`Tcp.RefusalShiftsLaterIds`). `Tcp.RefusedSubmitRun` runs into it, with packets that `Tcp.RefusableSubmits` gives.
- A receive is refused as soon as a TCP connection has a terminal error, queued packets or not
  (`Tcp.Connection.Receive`). `Tcp.HiddenPacketRun` loses a packet that had arrived whole.
- The delta tile index decoder does not check the order. It returns increasing ids exactly when every delta but the
  first is positive, and ids that can be encoded exactly when the deltas also add up to a u16
  (`TileIndex.DeltaDecodesIff`); a zero delta is accepted (`TileIndex.ZeroDeltaAccepted`).
- The typed and mixed builders of submits and results accept frames that claim the TENSOR profile. The peer's validator
  accepts a built body exactly when no frame does (`MixedBodies.MixedSubmitAccepted` and its three siblings), and each
  of the four builders emits a body that it refuses (`MixedBodies.RefusedTypedSubmit` and its siblings).
- The two validators leave no accepted body that cannot be decoded, but they do not resolve references. The tile ids a
  client reads from a result with tiles are those of its body if and only if the tile index is not referenced; when it
  is, the client reads a dense range, and that is right if and only if the referenced object holds one
  (`ResultBody.IdsFromBodyIff`, `ReferencedIdsIff`; an input in `ResultBody.ReferencedIdsInvented`). Sections that are
  referenced are read as none (`ResultBody.AcceptedPushDecodes`, `SubmitBody.AcceptedSubmitDecodes`).
- An incremental server reply may be sent after the terminal one exactly when it was in flight when the terminal call
  began (`ServerReply.LateIncrementalIff`; the first two calls of an operation can do it, `ServerReply.FirstReplyLate`).
- A client submit enters the frame table only after the native side took it. The table is left with an operation that
  was retired since exactly when what retired it was seen before the entry was made and nothing retired it after
  (`ClientSession.StaleIff`, with an input in `ClientSession.StaleEntry` and a run in `ClientSession.StaleRun`).
- A CANCEL, ABORT or SUPERSEDE frame retires its operation only after the native side took it. An operation submitted
  meanwhile is lost from the table exactly when its submit is live just before that, and nothing retires or submits the
  operation again after it (`ClientSession.LostIff`, with a run in `ClientSession.LostRun`).
- Selection depends on the order of the providers exactly when the comparator runs in a cycle, which takes equal probe
  results and mixed cost models (`TransportSelection.OrderMattersIffCycle`, `CycleIff`); one list of three providers
  and one set of evidence select QUIC in one order and TCP in another (`TransportSelection.OrderChangesProvider`). Even
  then no usable provider was probed with a better result than the selected one (`SelectionOrder.SelectedHasBestProbe`).
- Cancelling an id that is already suppressed does not extend its time (`Suppression.AgainIsNoRenewal`).

## Model

| member | source | states |
|---|---|---|
| SubmitBody.SubmitAccepted | src/nnrp/client/transport.py:524-568 | the tensor builder succeeds if and only if the input is legal (roles increasing, counts equal, ids legal for the mode, references of the right kind, and the sizes, computed from the input, in range), so the mode and mask the client chooses never trip a builder check; the body of every legal input passes the receiver's validation and its metadata is read back unchanged |
| SubmitBody.SizesFitIff | src/nnrp/core/packet.py:1607-1774 | with legal content, packing the inline objects, the references, the prelude and the metadata all succeed exactly when the sizes computed from the input are in range |
| SubmitBody.SubmitRoundTrips | src/nnrp/core/packet.py:1146-1166 | decoding an accepted tensor submit gives exactly the inline tile ids and, for every section, its role and the payload of every tile; the body holds one block of kind 1 with the camera bytes, of kind 2 with the tile index and of kind 3 with the section table where these are inline and not empty, no other block, and the given references in that order |
| SubmitBody.SubmitDescribed | src/nnrp/core/packet.py:1607-1774 | the metadata of a built submit: counts and sizes of the input, no inline bytes for a referenced object, one mask bit for each reference, Inline without references and Mixed exactly with references beside inline content, TENSOR as the only kind, and every other field the caller gave |
| SubmitBody.ObjectsAccepted | src/nnrp/core/packet.py:1305-1401 | the objects of every legal input satisfy the FRAME_SUBMIT object contract under the mode and mask the client chose, and each object kind holds exactly its own block |
| SubmitBody.SlotsAccepted | src/nnrp/core/packet.py:1777-1836 | for a legal input every slot is inline or referenced, never both, and the slot check returns the kinds of the references in order |
| SubmitBody.LegalInputBuilds | src/nnrp/core/packet.py:1607-1774 | the body of a legal input validates; its inline region unpacks to the blocks and its reference region to the references that were put in |
| SubmitBody.RegionsSound | src/nnrp/core/packet.py:1060-1143 | regions made of any packable blocks and references pass the checks every body passes and unpack to the same blocks and references |
| SubmitBody.AcceptedSubmitDecodes | src/nnrp/core/packet.py:1245-1256 | whatever bytes a peer sent, an accepted FRAME_SUBMIT decodes: typed frames unpack, sections are sound and as many as stated unless referenced, and tile ids are read if and only if the index is not referenced, or the mode is a dense range, or there are no tiles |
| MixedBodies.MixedSubmitAccepted | src/nnrp/core/packet.py:2238-2328 | the mixed builder, which validates nothing, emits a body that the peer validator accepts if and only if no frame claims the TENSOR profile |
| MixedBodies.MixedSubmitReads | src/nnrp/core/packet.py:2238-2328 | a mixed submit gives back its frames, its tile ids and, per section, role and tile payloads; its blocks are the camera bytes under kind 1, the tile index under kind 2 and the section table under kind 3, where present, and it has no references |
| MixedBodies.MixedSubmitDescribed | src/nnrp/core/packet.py:2238-2328 | the metadata of a mixed submit: counts and sizes of the tensor input, the number of frames, TENSOR and the kinds of the frames, inline and without references, and every other field the caller gave |
| MixedBodies.TypedSubmitDescribed | src/nnrp/core/packet.py:2103-2169 | the metadata of a submit of typed frames alone: every tensor field zero, the kinds of the frames, their number, and every other field the caller gave |
| MixedBodies.TypedSubmitAccepted | src/nnrp/core/packet.py:2103-2169 | a submit of typed frames alone is accepted under the same condition, and its frames are read back either way |
| MixedBodies.RefusedTypedSubmit | src/nnrp/core/packet.py:2103-2169 | the typed builder emits the body of an empty frame that claims the TENSOR profile, and the peer validator refuses it |
| MixedBodies.RefusedMixedSubmit | src/nnrp/core/packet.py:2238-2328 | the same for the mixed builder, with one camera byte beside the frame |
| MixedBodies.TypedContract | src/nnrp/core/packet.py:1274-1302 | the contract between payload bitmap, frame count and typed regions holds of packed frames exactly when none claims the TENSOR profile |
| ResultBody.PushRoundTrip | src/nnrp/core/packet.py:1839-1952 | the tensor RESULT_PUSH builder succeeds if and only if the input is legal (sections and ids legal, counts that add up, sizes in range), so its own validation never refuses what it assembled; a client reads back the tile ids, every role and every tile payload, and the body holds the tile index under kind 2 and the section table under kind 3, where present, and no other block |
| ResultBody.AssembledIff | src/nnrp/core/packet.py:1839-1952 | assembling the body succeeds exactly for the inputs whose sections, ids, counts and sizes are legal |
| ResultBody.ImpliedModeReads | src/nnrp/client/transport.py:729-737 | RESULT_PUSH metadata names no index mode, yet the mode implied by the index length decodes the ids that were packed |
| ResultBody.AssembledPush | src/nnrp/core/packet.py:1404-1476 | an assembled result passes the RESULT_PUSH object contract whatever typed frames travel beside it, so acceptance is decided by the typed contract alone |
| ResultBody.CheckOrderSorts | src/nnrp/core/packet.py:1416-1426 | comparing neighbouring references is enough: the check passes exactly when all references are pairwise in strict order |
| ResultBody.AcceptedPushDecodes | src/nnrp/core/packet.py:1259-1271 | whatever bytes a peer sent, an accepted RESULT_PUSH decodes: typed frames unpack, sections are sound and as many as stated unless referenced, and tile ids are read |
| ResultBody.ResultIdsSource | src/nnrp/client/transport.py:728-737 | the ids of an accepted result are those of its inline index, none when it has no tiles and no reference, and a dense range whenever a tile index is referenced |
| ResultBody.IdsFromBodyIff | src/nnrp/core/packet.py:1436-1460 | an accepted result with tiles carries its index in the body if and only if none is referenced |
| ResultBody.ReferencedIdsIff | src/nnrp/client/transport.py:728-737 | with a referenced index, the client reads the ids the referenced object holds if and only if they are the dense range from the tile base |
| ResultBody.ReferencedIdsInvented | src/nnrp/client/transport.py:728-737 | an input for the failing side: an accepted result of two tiles with a referenced index reads as 0 and 1, whatever was cached, for example 5 and 9 |
| ResultBody.CoverageChecked | src/nnrp/core/packet.py:2506-2528 | a helper: in every assembled result the covered and the dropped count add up to the tile count, and a partial one covers fewer; which tiles are meant is not recorded |
| ResultBody.PushDescribed | src/nnrp/core/packet.py:1839-1952 | the metadata of an assembled result: counts and sizes of the input, all tiles covered unless the caller says otherwise, and every other field the caller gave |
| ResultBody.MixedPushAccepted | src/nnrp/core/packet.py:2331-2435 | a mixed result is accepted if and only if no frame claims the TENSOR profile; tile ids, tile payloads and frames are read back either way |
| ResultBody.TypedPushAccepted | src/nnrp/core/packet.py:2172-2235 | a result of typed frames alone is accepted under the same condition and its frames are read back |
| ResultBody.RefusedTypedPush | src/nnrp/core/packet.py:2172-2235 | the typed result builder emits the body of an empty frame that claims the TENSOR profile, and the validator refuses it |
| ResultBody.RefusedMixedPush | src/nnrp/core/packet.py:2331-2435 | the same for the mixed result builder, with one tile beside the frame |
| ObjectContract.CheckObjectsIff | src/nnrp/core/packet.py:1305-1401 | a FRAME_SUBMIT body passes the object contract if and only if the mask has four bits that name, in slot order, exactly the kinds referenced (1, 2, 3 and 6), none of the four is inline twice or both inline and referenced, the mode allows what is there, the camera block has cameraBytes bytes and the tile index block tileIndexBytes (zero when there is none), inline blocks decode, and tiles and sections the metadata counts are inline or referenced |
| ObjectContract.CameraIff | src/nnrp/core/packet.py:1360-1372 | the camera part of it: an inline camera block has cameraBytes bytes, and without one cameraBytes is zero |
| ObjectContract.SlotsIff | src/nnrp/core/packet.py:1316-1358 | the four slot checks pass and agree with the order of the references exactly when the references are those the mask names, each once and in order, no named kind is inline and no kind is inline twice |
| ObjectContract.CheckPushObjectsIff | src/nnrp/core/packet.py:1404-1476 | a RESULT_PUSH body passes the object contract if and only if references strictly increase, tile index and section table occur at most once, inline or referenced, and at all when tiles or sections are counted, an inline index has tileIndexBytes bytes and decodes as raw ids or, with none, a dense range, and a referenced one leaves tileIndexBytes zero |
| ObjectContract.BeforeIff | src/nnrp/core/packet.py:1416-1426 | references are ordered by the first of kind, namespace, key half and key half in which they differ |
| ObjectContract.CheckTypedIff | src/nnrp/core/packet.py:1274-1302 | the typed contract holds if and only if there are as many descriptors as counted, no payload bytes when none is counted, no descriptor of the TENSOR kind, 0, or profile, 1, and exactly the kinds of the bitmap other than TENSOR |
| ObjectContract.ValidateSubmitIff | src/nnrp/core/packet.py:1245-1256 | a FRAME_SUBMIT body is accepted if and only if it is a sound body that keeps the typed and the object contract |
| ObjectContract.ValidatePushIff | src/nnrp/core/packet.py:1259-1271 | a RESULT_PUSH body is accepted if and only if it is a sound body that keeps both contracts and, with tensors, every tile is covered or dropped and a partial result dropped one |
| ObjectContract.TypedFramesIff | src/nnrp/core/packet.py:923-949 | typed frames are read exactly when their descriptors unpack, their payloads lie in the region in order and without overlap, and their kinds are those of the bitmap other than TENSOR; each frame is what its descriptor says, with the bytes it points to |
| ObjectContract.TypedFramesPackIff | src/nnrp/core/packet.py:889-921 | typed frames pack exactly when none is a tensor and every descriptor fits its record |
| ObjectContract.ExtensionFramesIff | src/nnrp/core/packet.py:1026-1057 | extension frames are read exactly when their descriptors unpack, their payloads lie in the region in order and without overlap, and no critical one is of a kind the reader does not name, if it names any |
| ObjectContract.MixedSubmitBuildsIff | src/nnrp/core/packet.py:2238-2328 | the mixed submit builder succeeds exactly with at least one frame and some tensor content, legal sections and ids, and parts that pack |
| ObjectContract.MixedPushBuildsIff | src/nnrp/core/packet.py:2331-2435 | the mixed result builder succeeds exactly with at least one frame, some tiles or sections, and parts that pack |
| Bodies.BodyRoundTrip | src/nnrp/core/packet.py:1060-1143 | a body packs if and only if its region sizes fit the prelude; it is accepted exactly when its regions are sound and is then cut into the same six regions |
| Bodies.BodyReencode | src/nnrp/core/packet.py:1090-1143 | every accepted body is the packing of the regions it was cut into, byte for byte |
| Metadata.SubmitRoundTrip | src/nnrp/core/messages/data.py:431-567 | FRAME_SUBMIT metadata packs exactly when it is consistent and in range, and is then read back unchanged |
| Metadata.BitmapRoundTrip | src/nnrp/core/messages/data.py:163-172 | a set of payload kinds survives its bitmap |
| Metadata.PushFitsIff | src/nnrp/core/messages/data.py:638-753 | which RESULT_PUSH metadata can be sent, by number: class 2 or flag 1 exactly with a reused frame, class 1 or flag 4 only with a dropped tile, covered and dropped tiles that add up, no tensor field without the TENSOR kind, and the widths of the fields |
| TileIndex.TileIndexRoundTrip | src/nnrp/core/packet.py:534-579 | in all four modes packing accepts exactly the legal ids (16-bit; in a dense range consecutive from the base; as deltas or bitset strictly increasing) and unpacking returns them |
| TileIndex.BitsetCanonical | src/nnrp/core/packet.py:1517-1570 | every accepted bitset decodes to strictly increasing ids; up to 8192 bytes, encoding them again gives the bitset without its trailing zero bytes |
| TileIndex.TileIndexReencode | src/nnrp/core/packet.py:1517-1570 | in each mode, decoding an accepted payload and encoding the ids again gives the same bytes exactly when the payload is canonical: a dense range within u16, any raw payload, deltas that are positive after the first and add up to a u16, a bitset of at most 8192 bytes without a trailing zero byte |
| TileIndex.DeltaDecodesIff | src/nnrp/core/packet.py:1543-1556 | an accepted delta payload decodes to increasing ids if and only if every delta but the first is positive, and to ids the encoder takes if and only if also the deltas add up to at most 65535 |
| TileIndex.ZeroDeltaAccepted | src/nnrp/core/packet.py:1517-1570 | an input for the failing side: a zero delta is accepted and decodes to equal ids, which no encoder takes |
| TileIndex.SetBitsExact | src/nnrp/core/packet.py:1558-1568 | scanning a bitset yields exactly the positions of its set bits, in increasing order |
| TileIndex.PackTileIndexBlock | src/nnrp/core/packet.py:534-579 | the encoder computes the tile index function, mode by mode, with the same refusals |
| TileIndex.CheckIncreasing | src/nnrp/core/packet.py:2745-2748 | the pairwise loop decides whether ids strictly increase |
| TileIndex.PackDeltas | src/nnrp/core/packet.py:556-568 | the delta loop writes each id as its distance from the one before |
| TileIndex.AddDeltas | src/nnrp/core/packet.py:1543-1556 | the accumulating loop yields the running sums of the deltas |
| TileIndex.PackBits | src/nnrp/core/packet.py:570-577 | setting bits in place in a zeroed payload gives the bitset with exactly the bits of the ids set |
| TileIndex.UnpackTileIndexBlock | src/nnrp/core/packet.py:1517-1570 | the decoder computes the inverse function with the same refusals |
| TensorSections.SectionAccepted | src/nnrp/core/packet.py:1573-1604 | packing a section succeeds if and only if the section is legal, and its tables then describe exactly the tile payloads |
| TensorSections.SectionRoundTrip | src/nnrp/core/packet.py:2604-2664 | parsing a packed section, whatever follows it, gives back its role, default codec, element type, layout, scale policy, element count and stride, every tile payload and every tile's codec |
| TensorSections.SectionParse | src/nnrp/core/packet.py:2604-2664 | any view that packs is parsed back unchanged with its exact length, whatever follows |
| TensorSections.SectionReencode | src/nnrp/core/packet.py:2532-2550 | a parsed section passes the packer's checks and packs to the bytes it was parsed from |
| SectionLayout.CheckViewIff | src/nnrp/core/packet.py:2627-2664 | the tables of a section agree with its descriptor exactly when their sizes are the stated ones, the lengths are four bytes each, flag bit 1 is set with a stride only, flag bit 0 with a codec table only, and a codec table has one entry per length |
| SectionLayout.PayloadsIff | src/nnrp/core/packet.py:449-469 | which payload regions are accepted and what is cut from them: with a stride, payload k starts at k strides and zeros fill its slot; without one, the payloads joined are the region; each has the length its table states |
| SectionLayout.LengthsAt | src/nnrp/core/packet.py:440-447 | the lengths of a section are the four-byte little-endian numbers of its table |
| TensorSections.ViewConsistent | src/nnrp/core/packet.py:2627-2664 | the tables built for a section pass the checks every section passes and slice the blob into the original payloads |
| TensorSections.BuildPayloadBlob | src/nnrp/core/packet.py:2718-2735 | the loop lays payloads out in fixed slots or back to back, refusing a payload longer than its slot |
| TensorSections.SlicePayload | src/nnrp/core/packet.py:449-469 | cutting a section payload computes the slices of the tile length table |
| TensorSections.SliceSlots | src/nnrp/core/packet.py:449-469 | with a stride each slice is the front of its slot, and the rest of the slot must be zero |
| TensorSections.SliceBackToBack | src/nnrp/core/packet.py:449-469 | without a stride the slices follow one another |
| TensorBody.PackSectionsAccepts | src/nnrp/core/packet.py:2667-2688 | sections are packed exactly when each is legal, holds one payload per tile, and roles strictly increase |
| TensorBody.RegionRoundTrip | src/nnrp/core/packet.py:2553-2601 | packing legal sections on 8-byte boundaries and unpacking the region gives back every role and tile payload |
| TensorBody.TensorBodyReencode | src/nnrp/core/packet.py:2498-2503 | an accepted tensor body without a tile index re-packs section by section, padding included, to the same bytes |
| TensorBody.UnpackPackedSections | src/nnrp/core/packet.py:2553-2601 | the same for sections placed after any aligned prefix: the parser stops exactly at the end of the region |
| TensorBody.ParsedSections | README.md:404-408 | whatever bytes they were parsed from, sections have strictly increasing roles, pass the checks of flags, codec and length tables, and hold one payload per tile, of the length their table states |
| TensorBody.PackSectionRegion | src/nnrp/core/packet.py:2498-2503 | the loop that pads and appends sections builds the aligned region |
| TensorBody.ParseTensorBody | src/nnrp/core/packet.py:2553-2601 | the parser computes the padding check and the section-by-section parse, with the same refusals, and leaves no byte unread |
| TensorBody.ParseSections | src/nnrp/core/packet.py:2567-2601 | the loop over the sections computes the recursive parse from the same start |
| InlineObjects.BlockRoundTrip | src/nnrp/core/packet.py:582-613 | a block packs exactly when its header states its payload's length in range, and is then read back unchanged |
| InlineObjects.BlockReencode | src/nnrp/core/packet.py:593-613 | accepted block bytes are the packing of the block they were read as |
| InlineObjects.BlocksRoundTrip | src/nnrp/core/packet.py:616-619 | blocks packed one after another are split and read back exactly |
| InlineObjects.SplitPartitions | src/nnrp/core/packet.py:1169-1185 | the parts an accepted region is split into, joined, are the region |
| InlineObjects.BlocksReencode | src/nnrp/core/packet.py:1169-1185 | an accepted inline object region re-packs block by block to the same bytes |
| InlineObjects.ReferencesRoundTrip | src/nnrp/core/packet.py:678-695 | reference blocks pack exactly when their keys fit and are read back in order |
| RecordTables.AllRoundTrip | src/nnrp/core/packet.py:678-695 | a table of fixed-size records packs exactly when each record does, and is read back record by record; references and both kinds of descriptors are such tables |
| InlineObjects.SplitInlineObjectRegion | src/nnrp/core/packet.py:1169-1185 | the loop that walks from header to header computes the split, with the same refusals |
| TypedFrames.TypedFramesRoundTrip | src/nnrp/core/packet.py:889-949 | unpacking packed typed frames returns the frames, under the bitmap of their kinds with or without the tensor bit, and the descriptor table is valid for the region |
| TypedFrames.DescriptorRoundTrip | src/nnrp/schema.py:256-325 | a typed payload descriptor packs exactly when it is valid and is read back unchanged |
| TypedFrames.PackTypedPayloadFrames | src/nnrp/core/packet.py:889-921 | the loop that lays out descriptors and payloads computes the two regions |
| ExtensionFrames.ExtensionFramesRoundTrip | src/nnrp/core/packet.py:998-1057 | unpacking packed extension frames gives the known ones in order and fails exactly when a critical one is unknown |
| ExtensionFrames.KnownFramesNext | src/nnrp/core/packet.py:1043-1055 | a reader that names no kinds takes every frame; one that names some takes the frames of those kinds, in order |
| ExtensionFrames.UnknownCriticalIff | src/nnrp/core/packet.py:1026-1057 | reading packed extension frames fails exactly when kinds are named and a critical frame is of none of them |
| ExtensionFrames.DescriptorRoundTrip | src/nnrp/core/messages/data.py:383-428 | an extension frame descriptor packs exactly when its fields fit and is read back unchanged |
| ExtensionFrames.UnpackFrames | src/nnrp/core/packet.py:1026-1057 | the unpacking loop computes that result, with the same refusals |
| PayloadSpans.OffsetsDisjoint | src/nnrp/core/packet.py:1479-1500 | comparing neighbours is enough: the check passes if and only if all payload ranges are in bounds, ordered and pairwise disjoint |
| PayloadSpans.SpansOfJoin | src/nnrp/core/packet.py:889-921 | ranges laid end to end cut the original payloads out of the region |
| PayloadSpans.DescriptorsCut | src/nnrp/core/packet.py:889-921 | the descriptors of any frames, typed or extension, are valid for the joined payloads and cut every payload out of them |
| PayloadSpans.ValidateDescriptorOffsets | src/nnrp/core/packet.py:1479-1500 | the loop accepts exactly the disjoint, in-bounds tables |
| Header.HeaderRoundTrip | src/nnrp/core/header.py:30-48 | a header packs exactly when it is well-formed and is read back unchanged |
| Header.HeaderReencode | src/nnrp/core/header.py:50-97 | every accepted header is well-formed and re-encodes to the 40 bytes it came from |
| Packets.PacketRoundTrip | src/nnrp/core/packet.py:100-147 | packing refuses exactly the packets whose header and lengths disagree; the others are read back unchanged |
| Packets.PacketReencode | src/nnrp/core/packet.py:148-164 | every accepted byte string is the encoding of the packet it was read as |
| RecordPositions.HeaderAt | src/nnrp/core/header.py:10-97 | forty bytes are a header exactly when bytes 0-3 are the magic number, byte 5 is 0, byte 7 is 40 and byte 6 is a declared type, and at which bytes each field is read: session id 20-23, frame id 24-27, view id 28-29, and so on |
| RecordPositions.MagicLetters | src/nnrp/core/header.py:10-10 | the magic numbers are the letters NNRP and NRTK in this order |
| RecordPositions.PacketAt | src/nnrp/core/packet.py:148-164 | bytes are a packet exactly when the first forty are a header and the length is 40 plus the two lengths it states; metadata comes first, then the body |
| RecordPositions.SubmitAt | src/nnrp/core/messages/data.py:431-567 | at which byte each field of FRAME_SUBMIT metadata is read, and the numbers of the index modes and submit modes |
| RecordPositions.SubmitAcceptedIff | src/nnrp/core/messages/data.py:431-567 | which 72 bytes are accepted as FRAME_SUBMIT metadata |
| RecordPositions.BitmapDigits | src/nnrp/core/messages/data.py:163-172 | a bitmap names the kinds whose power of two is among its digits |
| RecordPositions.TypedDescriptorAt | src/nnrp/schema.py:256-325 | which 24 bytes are a typed payload descriptor, and at which byte each field is read |
| RecordPositions.ExtensionDescriptorAt | src/nnrp/core/messages/data.py:383-428 | which 16 bytes are an extension descriptor, and at which byte each field is read |
| RecordPositions.BlockHeaderAt | src/nnrp/core/packet.py:593-613 | which 16 bytes are a block header, and at which byte kind, profile and object size are read |
| RecordPositions.BlockAt | src/nnrp/core/packet.py:593-613 | a block is its header, its object and zeros up to the next multiple of eight |
| RecordPositions.ReferenceAt | src/nnrp/core/packet.py:678-695 | which 24 bytes are a reference block, and at which byte kind, namespace and key are read |
| RecordPositions.SectionDescAt | src/nnrp/core/packet.py:2604-2625 | which 32 bytes are a section descriptor, and at which byte each field is read |
| RecordPositions.SectionAt | src/nnrp/core/packet.py:2604-2625 | a section is its descriptor, its codec table, its length table and its payload, in this order |
| RecordPositions.BodyAt | src/nnrp/core/packet.py:1090-1143 | a body is eight numbers and six regions of the lengths of the first six, in this order; the last two are zero and the tables hold whole records |
| RecordPositions.RegionsAcceptedIff | src/nnrp/core/packet.py:1090-1143 | the six regions are sound exactly when blocks, references and both descriptor tables unpack and the payloads they point to lie in their regions, in order and without overlap |
| RecordPositions.DenseAt | src/nnrp/core/packet.py:1528-1532 | a dense range has no bytes and stands for consecutive ids from the base |
| RecordPositions.RawAt | src/nnrp/core/packet.py:1537-1542 | raw tile ids are the two-byte numbers of the payload |
| RecordPositions.DeltasAt | src/nnrp/core/packet.py:1543-1556 | in the delta mode the two-byte numbers are the first id and the distance from each id to the next |
| RecordPositions.BitsetAt | src/nnrp/core/packet.py:1558-1570 | in the bitset mode id x is digit x mod 8, lowest first, of byte x div 8 |
| RecordPositions.FrameAt | src/nnrp/runtime/__init__.py:253-267 | which bytes are an application frame, at which byte each of its fields is read, and which error each refused input gives |
| RecordPositions.TicketAt | src/nnrp/client/native.py:133-161 | which bytes are a recovery ticket, and at which byte each field is read |
| Wire.UnpackPackRecord | src/nnrp/core/messages/data.py:92-107 | fixed-width little-endian records are read back unchanged |
| Wire.PackUnpackRecord | src/nnrp/core/messages/data.py:92-107 | reading a record of the right size and writing it again gives the same bytes |
| Wire.DecodeEncodeAll | src/nnrp/core/packet.py:2751-2754 | tables of little-endian entries are read back unchanged |
| Streams.ParseUnique | src/nnrp/adapters/tcp.py:401-412 | a byte string that is a run of encoded packets followed by bytes holding no whole packet is read as exactly those packets: the incremental parser has one possible answer |
| Streams.ParseSplit | src/nnrp/adapters/tcp.py:401-412 | reading a first part and then its left-over bytes with a second part is reading both at once, so chunking never matters |
| Streams.ParseConsumes | src/nnrp/adapters/tcp.py:401-412 | reading loses nothing: the packets re-encode to the consumed bytes, and what is left holds no whole packet |
| Streams.ParseFailedStays | src/nnrp/adapters/tcp.py:401-412 | a malformed stream stays malformed and yields no further packet |
| Streams.ParsePrefixOfStream | src/nnrp/adapters/tcp.py:401-412 | any part of a stream of packets reads as a prefix of those packets and never fails |
| Streams.TryUnpackConsumes | src/nnrp/adapters/tcp.py:401-412 | taking a packet removes exactly its encoding, at least 40 bytes |
| Streams.TryUnpackExtend | src/nnrp/adapters/tcp.py:401-412 | only an incomplete answer can change when more bytes arrive |
| Streams.ByteBuffer.TryUnpackPacket | src/nnrp/adapters/tcp.py:401-412 | the buffer loses exactly the packet's bytes when one is complete and is untouched otherwise |
| Tcp.Connection.ReadPackets | src/nnrp/adapters/tcp.py:176-212 | what the reader routes and the terminal error it ends with are functions of the concatenated bytes and the ending, for every split into non-empty chunks: ConnectionClosed exactly when no header was refused, no read failed and, at the end of the file, no byte was left; an earlier terminal error is kept |
| Tcp.Connection.RouteBuffered | src/nnrp/adapters/tcp.py:190-194 | the inner loop routes the whole packets at the front of the buffer in order and leaves the rest |
| Tcp.Connection.RoutePacket | src/nnrp/adapters/tcp.py:241-252 | type 0x10 goes to the end of the submit queue, 0x12 and 0x13 to that of the result queue, every other type to that of the control queue, and the other two queues stay as they are; submits and results take the next synthetic id, four apart |
| Tcp.Connection.FailConnection | src/nnrp/adapters/tcp.py:274-279 | only the first terminal error is kept |
| Tcp.Connection.SendPacket | src/nnrp/adapters/tcp.py:151-158 | a send writes exactly the packet's encoding or nothing, and a failed drain closes the connection |
| Tcp.Connection.SendControlPacket | src/nnrp/adapters/tcp.py:125-126 | a control send is recorded as written exactly when the packet is sendable on a live connection; only a failed drain ends the connection |
| Tcp.Connection.SendSubmitPacket | src/nnrp/adapters/tcp.py:131-136 | any type but 0x10 is refused without an id; a submit takes the next synthetic id before packing, so a refused packet costs an id and leaves the connection alive; it succeeds exactly when it is sendable, the connection is live and the write drains, and answers with that id; only a failed drain ends the connection |
| Tcp.Connection.SendResultPacket | src/nnrp/adapters/tcp.py:141-146 | the same for results, whose types are 0x12 and 0x13 |
| Tcp.Connection.Receive | src/nnrp/adapters/tcp.py:214-239 | a receive returns the packet of the class after those already taken; a terminal error hides packets still queued |
| Tcp.PeerOrder | src/nnrp/adapters/tcp.py:125-149 | under any chunking, what the receiver has routed to a class is a prefix of what the peer wrote in it, and the reader has not failed |
| Tcp.IdsAgree | src/nnrp/adapters/tcp.py:254-272 | the k-th packet of a class carries the same synthetic id on both sides if and only if every packet of the class went through its own call and none before it was refused |
| Tcp.RefusalShiftsLaterIds | src/nnrp/adapters/tcp.py:131-146 | once a call of a class was refused, every packet of the class written later carries a higher id at its sender than at its receiver, and the ids before stay as they were |
| Tcp.RefusedSubmitRun | src/nnrp/adapters/tcp.py:131-136 | a run of the class: on a new connection a submit that cannot be packed is refused and the next one is written; it carries the id after the one its peer gives it, and the connection is alive |
| Tcp.RefusableSubmits | src/nnrp/core/packet.py:100-147 | there are two such submits: an empty one, and one whose header promises metadata that is missing |
| Tcp.HiddenPacketRun | src/nnrp/adapters/tcp.py:176-239 | a run of the class: a packet arrives whole, the stream ends, and the receive of its class is refused although the packet was routed and not taken |
| Tcp.CallsAhead | src/nnrp/adapters/tcp.py:254-272 | calls run ahead of written packets by at least the refused ones, and by nothing when none was refused |
| Routing.ClassByType | src/nnrp/adapters/tcp.py:241-252 | a packet is a submit if and only if its type is 0x10, a result if and only if it is 0x12 or 0x13, and control traffic otherwise |
| Routing.OfClassPrefix | src/nnrp/adapters/tcp.py:241-252 | a prefix of the traffic holds a prefix of every class |
| WebSocket.DecodeBatch | src/nnrp/runtime/__init__.py:270-291 | the decoder computes, for every limit, one verdict: a negative limit; too many frames (more than the limit, or bytes left after exactly the limit, whatever they hold); malformed; incomplete; or the frames of the stream parser exactly when no byte is left, none was refused and the limit, if any, is met |
| WebSocket.NextFrame | src/nnrp/runtime/__init__.py:280-290 | one turn of the loop: the frame at the cursor and where it ends, or how the bytes there fail |
| WebSocket.BatchOfFrames | src/nnrp/runtime/__init__.py:270-291 | concatenated encoded frames decode to exactly those frames under every limit that admits them, and are too many under a smaller one |
| WebSocket.FrameRoundTrip | src/nnrp/runtime/__init__.py:230-267 | a frame encodes exactly when it is sendable and is decoded unchanged |
| WebSocket.DecodeFrameIsUnpack | src/nnrp/runtime/__init__.py:253-267 | the frame decoder accepts what the packet decoder accepts and sees the same content |
| Quic.Connection.HandleStreamData | src/nnrp/adapters/quic.py:224-251 | until the first failure each stream's routed packets are the parse of that stream's own bytes, for any interleaving; a live connection fails exactly when the bytes of the event's stream hold a refused header, or the stream ends with a partial packet; the first stream with low bits 0 or 1 becomes the control stream, which like the terminal error never changes again |
| Quic.Connection.Absorb | src/nnrp/adapters/quic.py:228-240 | one event extends one buffer and routes what became whole on that stream |
| Quic.Connection.RouteBuffered | src/nnrp/adapters/quic.py:228-240 | the inner loop routes the whole packets of one stream and touches no other |
| Quic.Connection.RoutePacket | src/nnrp/adapters/quic.py:253-268 | a packet on the control stream goes to the control queue whatever its type; on any other, 0x10 goes to the submit queue, 0x12 and 0x13 to the result queue and the rest to the control queue; the other queues stay as they are |
| Quic.Connection.EnsureControlStream | src/nnrp/adapters/quic.py:152-155 | the control stream is chosen once |
| Quic.Connection.FailConnection | src/nnrp/adapters/quic.py:284-289 | only the first terminal error is kept |
| Quic.Connection.BufferOf | src/nnrp/adapters/quic.py:224-229 | a stream gets its own buffer on first data and no other buffer changes |
| Quic.HealthyPerStream | src/nnrp/adapters/quic.py:224-251 | whether a run fails is settled stream by stream, whatever the interleaving |
| Quic.BytesOnOwnEvents | src/nnrp/adapters/quic.py:224-251 | the bytes of a stream do not depend on how it is interleaved with others |
| Quic.ControlChosenLater | src/nnrp/adapters/quic.py:253-268 | choosing the control stream late does not reclassify packets of unidirectional streams |
| Ledger.RunAccounted | src/nnrp/native.py:5631-5702 | over every run of any selective receivers with any native batches, pending is exactly the pulled and undelivered events in wire order and nothing is delivered twice |
| Ledger.RunKeepsOrder | src/nnrp/native.py:5631-5702 | over every run whose receivers treat a class of events alike, the class is delivered in wire order without gaps |
| Ledger.ReceiveKeeps | src/nnrp/native.py:5767-5800 | each single receive keeps the account |
| Ledger.ReceivedWanted | src/nnrp/native.py:5767-5800 | what a receive hands over was wanted, pulled and not delivered before; with room left, every wanted event pulled so far has been delivered |
| Ledger.SelectAppend | src/nnrp/native.py:5779-5800 | a receiver that goes through the queue and then through a polled batch acts as on the two joined |
| Ledger.SelectKeepsOrder | src/nnrp/native.py:5779-5800 | a receiver that wants all or none of a class never lets one of its events overtake another |
| ServerSession.NativeRuntimeServerSession.NextEvent | src/nnrp/native.py:5631-5646 | next_event delivers the earliest undelivered event, as the submit, frame or record that the wire holds at its place; it polls only when none is pending and gives up without touching the queue |
| ServerSession.NativeRuntimeServerSession.ReceiveSubmit | src/nnrp/native.py:5648-5665 | receive_submit delivers the earliest undelivered event of type 0x10, as an operation with the id and frame of that event, and keeps every skipped event in the same queue, in order; when it gives up, every submit pulled so far had been delivered |
| ServerSession.NativeRuntimeServerSession.TakePendingSubmit | src/nnrp/native.py:5667-5673 | removes exactly the first queued submit |
| ServerSession.NativeRuntimeServerSession.PollEvents | src/nnrp/native.py:5675-5692 | poll_events delivers up to max_events undelivered events, earliest first |
| ServerSession.NativeRuntimeServerSession.PollRuntimeFrames | src/nnrp/native.py:5767-5800 | poll_runtime_frames delivers up to max_events runtime events of other types than 0x10, earliest first and each as its event, and keeps the rest queued; with fewer than max_events, every such event pulled so far has been delivered |
| ServerSession.NativeRuntimeServerSession.PollNative | src/nnrp/native.py:5694-5765 | a native poll wraps the next events of the wire: type 0x10 as a numbered operation, other runtime events as frames, the rest as records; it notes submits and session closes (type 0x09) in the frame table |
| ServerSession.NativeRuntimeServerSession.WrapPolled | src/nnrp/native.py:5738-5765 | wrapping one event: a submit enters the frame table under the operation its metadata names, a SESSION_CLOSE empties the table, and nothing else touches it |
| ServerSession.NativeRuntimeServerSession.Close | src/nnrp/native.py:5942-5950 | closing empties the frame table once; a native refusal leaves the session open and the table as it was |
| ServerSession.NativeRuntimeServerSession.ForgetOperation | src/nnrp/native.py:5983-5985 | a settled operation leaves the frame table |
| ServerSession.NativeRuntimeServerSession.TraceContextFrame | src/nnrp/native.py:5822-5830 | an operation-scoped trace frame carries the submit frame id of a live operation or is refused when there is none |
| ServerSession.PumpAccounts | scripts/check_sdk_api_contract.py:32-48 | over every run of the four receivers the account holds, and submits, runtime frames and lifecycle records each come out in wire order without gaps |
| ServerSession.PumpOnWire | scripts/check_sdk_api_contract.py:32-48 | the account on the native events themselves: the operations delivered or pending are exactly the pulled runtime events of type 0x10, with their ids, frames and numbers; the frames exactly the other pulled runtime events; the records exactly the pulled lifecycle events; each once and in wire order |
| ServerSession.CanonicalOrder | scripts/check_sdk_api_contract.py:35-35 | next_event and poll_events alone deliver every event in wire order without filtering |
| ServerSession.OneOperationPerSubmit | scripts/check_sdk_api_contract.py:40-43 | each submit yields one operation: the delivered operations are number 0, 1, 2, ... and with the pending ones are as many as the submits pulled |
| ServerReply.AtMostOneTerminal | src/nnrp/native.py:5476-5497 | under every interleaving at most one terminal reply succeeds, and every call that began after it was refused |
| ServerReply.BeginsIff | src/nnrp/native.py:5549-5559 | a reply begins if and only if the session was seen open and no terminal reply is in flight, unsettled or successful |
| ServerReply.FailureReenables | src/nnrp/native.py:5561-5563 | once a failed terminal reply is acted on, nothing holds the reply |
| ServerReply.SuccessIsFinal | scripts/check_sdk_api_contract.py:64-70 | after a successful terminal reply every later call is refused, whatever happens next |
| ServerReply.ClosedStays | src/nnrp/native.py:5549-5559 | a closed session stays closed, and a reply that sees it so is refused |
| ServerReply.IncrementalMayFinishLate | src/nnrp/native.py:5499-5531 | the flag is checked at the start only: any incremental reply in flight when a terminal call begins can finish after that call succeeded |
| ServerReply.LateWasInFlight | src/nnrp/native.py:5499-5531 | while a terminal call holds the reply, the only incremental sends in flight are those that were in flight when it began |
| ServerReply.LateIncrementalIff | src/nnrp/native.py:5499-5531 | some continuation sends an incremental reply after a terminal one if and only if an incremental send was in flight when the terminal call began |
| ServerReply.FirstReplyLate | src/nnrp/native.py:5499-5531 | an input: the first call of an operation is incremental and still sending when the second, terminal one has succeeded |
| ServerReply.NativeRuntimeServerOperation.BeginReply | src/nnrp/native.py:5549-5559 | the method takes the Begin step of the state machine: it succeeds, and goes on to send, exactly when the session is open and the flag is down; a terminal call that succeeds raises the flag |
| ServerReply.NativeRuntimeServerOperation.SettleTerminal | src/nnrp/native.py:5488-5497 | the method takes the Settle step: failure lowers the flag and leaves the owner's frame table, success keeps the flag and removes exactly this operation from the table |
| FrameTable.TableIsLive | src/nnrp/native.py:5362-5394 | a table maps an operation to a frame if and only if some event submitted it under that frame and nothing later submitted or retired it |
| NativeEvents.ResultByNumber | src/nnrp/native.py:6041-6057 | what ends an operation: an event of kind 6, 7 or 10, or a lifecycle record of kind 14 that says completed, cancelled, superseded or failed |
| NativeEvents.OperationByField | src/nnrp/native.py:3606-3620 | the operation of an event: the one its metadata names for a SUPERSEDE or when the diagnostic names none, else the diagnostic one |
| ClientSession.RetiredUntilResubmitted | src/nnrp/native.py:5390-5417 | an operation retired and not submitted again has no frame; one submitted and not retired keeps its latest frame |
| ClientSession.NativeRuntimeSession.DispatchRuntimeFrame | src/nnrp/native.py:5272-5283 | the first half of a control send: an operation-scoped frame carries the submit frame of its live operation or is refused, unless the caller passes a frame id; a session-scoped one carries the frame counter; the table stays as it is |
| ClientSession.NativeRuntimeSession.FinishRuntimeFrame | src/nnrp/native.py:5284-5296 | the second half: CANCEL, ABORT and SUPERSEDE retire the operation, whatever submit the table holds by then; a session-scoped frame moves the counter past the id it carried |
| ClientSession.NativeRuntimeSession.RuntimeFrameId | src/nnrp/native.py:5339-5360 | the frame id chosen for a control frame, and the frame types that may name operation 0; ScopedByNumber gives both lists of types by number |
| ClientSession.ScopedByNumber | src/nnrp/native.py:6006-6031 | which control frames name an operation, and which of them may name operation 0, by type number |
| ClientSession.NativeRuntimeSession.OperationFrameId | src/nnrp/native.py:5362-5370 | the lookup finds the frame of a live operation and refuses every other operation |
| ClientSession.NativeRuntimeSession.DispatchSubmit | src/nnrp/native.py:4818-4838 | the first half of a submit: the checks and the native call, which leave the table as it is |
| ClientSession.NativeRuntimeSession.RecordSubmit | src/nnrp/native.py:4851-4851 | the second half: the operation enters the table, whatever events were pulled in between |
| ClientSession.StaleIff | src/nnrp/native.py:4836-4851 | the table keeps an operation retired since its dispatch exactly when the retiring event came before the entry and none came after; such an entry stays until a later event retires it |
| ClientSession.StaleEntry | src/nnrp/native.py:4836-4851 | an input: the COMPLETED record of an operation is observed before its submit is recorded, and the operation stays in the table |
| ClientSession.StaleRun | src/nnrp/native.py:4810-4852 | a run of the class: submit dispatched, its COMPLETED record received, submit recorded; the table then holds an operation that is over |
| ClientSession.LostIff | src/nnrp/native.py:5282-5296 | a retiring entry made after its frame was sent takes away an operation submitted since exactly when that submit was live just before the entry and nothing retired or submitted the operation later |
| ClientSession.LostRun | src/nnrp/native.py:5264-5296 | a run of the class: a submit of the same operation recorded between the native send of a CANCEL and its retiring step is not in the table afterwards |
| ClientSession.NativeRuntimeSession.Cancel | src/nnrp/native.py:5256-5262 | cancel by frame id retires every operation submitted under that frame |
| ClientSession.NativeRuntimeSession.ForgetByFrame | src/nnrp/native.py:5390-5394 | the loop over the table removes exactly the operations of one frame |
| ClientSession.NativeRuntimeSession.Close | src/nnrp/native.py:5246-5254 | closing empties the frame table once; a native refusal leaves the session open and the table as it was |
| ClientSession.NativeRuntimeSession.Observe | src/nnrp/native.py:5396-5417 | a pulled event of this session retires its operation when it is of kind 6, 7 or 10, a final lifecycle record, or a CANCEL, ABORT or SUPERSEDE, and all of them on SESSION_CLOSE; every other event leaves the frame table as it is |
| ClientSession.NativeRuntimeSession.AllocateControlSequence | src/nnrp/native.py:5372-5380 | control sequences run through the non-zero 64-bit numbers and wrap to 1 |
| ClientSession.NativeRuntimeSession.AwaitEvent | src/nnrp/native.py:4338-4350 | await_event delivers the earliest undelivered event, at most one pull from the native side |
| ClientSession.NativeRuntimeSession.PollEventsBatch | src/nnrp/native.py:4384-4410 | delivers up to max_events undelivered events of a kind, earliest first; others stay queued |
| ClientSession.NativeRuntimeSession.PollRuntimeFrames | src/nnrp/native.py:4535-4572 | delivers runtime frames earliest first; without a limit it goes on until a poll is empty and leaves no runtime frame queued |
| ClientSession.NativeRuntimeSession.PollResult | src/nnrp/native.py:4909-4973 | poll_result returns the earliest undelivered event of kind 6, 7 or 10, or final lifecycle record, of its session and operation, and nothing else; when it returns none, every such event pulled so far had been delivered |
| ClientSession.NativeRuntimeSession.TakePendingResult | src/nnrp/native.py:4975-4986 | removes exactly the first queued event that answers the operation: of its session and operation, and of kind 6, 7 or 10 or a final lifecycle record |
| ClientSession.NativeRuntimeSession.PollNative | src/nnrp/native.py:4411-4439 | a native poll hands over the next events of the wire and observes each |
| ClientSession.NativeRuntimeSession.TakePending | src/nnrp/native.py:4441-4455 | the selection loop splits the queue into taken and retained events, both in order |
| ClientSession.NativeRuntimeSession.Distribute | src/nnrp/native.py:4404-4408 | polled events go to the caller while there is room and to the queue otherwise, as if queue and batch were one list |
| ClientSession.TakesEarliest | src/nnrp/native.py:4929-4986 | a receiver of one event returns the earliest wanted event that was not delivered before |
| ClientSession.PumpAccounts | src/nnrp/native.py:4338-4455 | over every run of the receivers pulled events are exactly delivered plus pending, with pending in wire order |
| ClientSession.KindsInOrder | src/nnrp/native.py:4384-4455 | receivers that choose by event kind deliver each kind in wire order without gaps |
| TransportSelection.OrderMattersIffCycle | src/nnrp/native.py:6344-6436 | for a valid registry that must probe, every order of the providers gives the same answer if and only if the comparator has no cycle among the successful candidates |
| TransportSelection.CostModelsDecide | src/nnrp/native.py:6344-6436 | when the successful candidates share one cost model, or no two share a non-zero one, provider, ranks and diagnostics are the same for every order of the providers |
| TransportSelection.SelectIgnoresOrder | src/nnrp/native.py:6344-6436 | without a cycle the whole answer, errors included, ignores the order of the providers |
| TransportSelection.CycleIff | src/nnrp/native.py:6567-6594 | three candidates form a cycle exactly when their probe results tie and costs and later keys push round in one direction |
| TransportSelection.CostModelsAcyclic | src/nnrp/native.py:6597-6603 | either cost condition rules out every cycle |
| TransportSelection.MixedModelsCycle | src/nnrp/native.py:6567-6603 | two providers of one cost model and one of another form a cycle, so the condition on cost models is needed |
| TransportSelection.OrderChangesProvider | src/nnrp/native.py:6344-6436 | three providers with one set of evidence: selection answers QUIC for one order of the list and TCP for another |
| TransportSelection.SelectionShape | src/nnrp/native.py:6383-6436 | the answer lists the successful candidates with ranks 0..k-1 in comparator order and then the rejected ones; the first winner is selected, and without winners the same list goes into the error |
| TransportSelection.DirectShape | src/nnrp/native.py:6371-6381 | a single eligible candidate is selected at rank 0 and no probe is looked at |
| TransportSelection.WinnersInOrder | src/nnrp/native.py:6408-6424 | the ranked candidates are the successful ones, each once, and without a cycle in the order of the comparator, which SelectionOrder.BetterIff gives on fields |
| TransportSelection.SelectedIsSound | src/nnrp/native.py:6344-6436 | whatever is selected is a registered provider that policy, availability, peer, limit, route and security allow, and unless it is the only such one its probe succeeded |
| TransportSelection.EligibleIsUsable | src/nnrp/native.py:6462-6513 | a helper: a candidate has no rejection exactly when every check passes; a successful one passed them all and has probe metrics |
| TransportSelection.FailsIffNoContender | src/nnrp/native.py:6425-6429 | with valid evidence, selection fails if and only if not exactly one candidate is eligible and no probe succeeded |
| TransportSelection.SelectedIsBest | src/nnrp/native.py:6430-6436 | without a cycle no successful candidate is better than the selected one; SelectionOrder.SelectedLeads says so on metrics |
| SelectionOrder.BetterIff | src/nnrp/native.py:6567-6594 | one probed candidate precedes another by the first of these in which they differ: more successes, higher throughput, lower round-trip time, fewer units of one declared cost model, the preferred transport, lower preference rank, lower transport id, provider id |
| SelectionOrder.SelectedHasBestProbe | src/nnrp/native.py:6383-6436 | whatever cycles the costs make, no usable provider has a better probe than the selected one: none had more successes, with as many none higher throughput, and with that equal none a lower round-trip time |
| SelectionOrder.SelectedLeads | src/nnrp/native.py:6383-6436 | without a cycle the selected provider leads every other usable and probed one by the first key in which they differ, in the order above |
| SelectionOrder.ContendersIff | src/nnrp/native.py:6383-6412 | the successful candidates are the usable providers whose observation has metrics, with those metrics |
| SelectionOrder.EvaluatedAs | src/nnrp/native.py:6462-6513 | the record of a provider before any probe: the three flags from policy inputs, the first failing check as the rejection (policy, availability, peer, limit, route, security), and the diagnostic text |
| SelectionOrder.ProbedAs | src/nnrp/native.py:6383-6408 | probing leaves a rejected candidate as it is and judges the others by their observation: succeeded with its metrics, failed, or missing |
| SelectionOrder.FaultlessIff | src/nnrp/native.py:6685-6725 | evidence is accepted exactly when no two providers share a transport or an id, each has exactly one readiness record and at most one observation, and there is no record for anything else |
| SelectionOrder.AnswerReports | src/nnrp/native.py:6371-6436 | every answer to valid evidence lists each provider once, ranked ones first with ranks 0, 1, ..., then the others by transport id; the selected provider is at the head, one provider is ranked after a direct choice, those whose probe succeeded otherwise, and none in an error |
| SelectionOrder.RefusedAs | src/nnrp/native.py:6728-6759 | an error under a forced policy names the forced transport and the rejection of its provider, if one is registered; under any other policy nothing is viable |
| SelectionOrder.PrecedesIff | src/nnrp/native.py:6593-6607 | provider ids are compared at the first position in which they differ, and a proper prefix comes first |
| TransportSelection.OrderedShape | src/nnrp/native.py:6620-6633 | the diagnostic list is the ranked candidates by rank followed by the others by transport id |
| TransportSelection.ReadinessFound | src/nnrp/native.py:6662-6725 | validated evidence holds exactly one readiness record per provider, and that one is used |
| TransportSelection.SelectProvider | src/nnrp/native.py:6344-6436 | the function as written, rewriting its candidate list by position, computes that answer |
| TransportSelection.EvaluateCandidates | src/nnrp/native.py:6462-6513 | the loop evaluates every provider, the first failing check giving the rejection |
| TransportSelection.Rank | src/nnrp/native.py:6421-6424 | writing ranks through the sorted positions ranks exactly the successful candidates |
| TransportSelection.Median | src/nnrp/native.py:6636-6642 | the middle value, or the floor of the mean of the two middle values, which lies between them |
| Sorting.MiddlesSplit | src/nnrp/native.py:6636-6642 | at least half of the samples are no greater than the lower middle and at least half no less than the upper |
| Sorting.SortIgnoresOrder | src/nnrp/native.py:6421-6421 | a comparison that is total and has no cycle sorts every arrangement of the same members alike |
| Sorting.SortRefined | src/nnrp/native.py:6421-6421 | whatever cycles a comparison has, the sorted result is in the order of any coarser order that the comparison refines |
| Sorting.CycleDependsOnOrder | src/nnrp/native.py:6421-6421 | with a cycle among three members the sorted result depends on the order they arrive in |
| OrderedBuffer.FrameResultBuffer.Add | src/nnrp/tools/ordered_buffer.py:52-61 | adding sets the packet of a frame, replacing an earlier one |
| OrderedBuffer.FrameResultBuffer.PeekNextFrameId | src/nnrp/tools/ordered_buffer.py:67-74 | peeking returns the least buffered frame id and leaves the packets as they are |
| OrderedBuffer.FrameResultBuffer.PopNext | src/nnrp/tools/ordered_buffer.py:76-91 | removes and returns the packet of the least frame, or nothing when the buffer is empty or another frame is expected |
| OrderedBuffer.FrameResultBuffer.PopAll | src/nnrp/tools/ordered_buffer.py:9-18 | calling pop_next until the buffer is empty, the documented use, hands out exactly the drained sequence the next two lemmas are about |
| OrderedBuffer.FrameResultBuffer.PopFrame | src/nnrp/tools/ordered_buffer.py:93-101 | removes and returns the packet of one frame; stale and double heap entries never show |
| OrderedBuffer.DrainedAscending | src/nnrp/tools/ordered_buffer.py:1-21 | draining hands out every packet once, strictly ascending in frame id |
| OrderedBuffer.DrainIgnoresArrival | src/nnrp/tools/ordered_buffer.py:1-21 | results of distinct frames come out alike in whatever order they arrived |
| MigrationMonitor.MigrationTriggerMonitor.Observe | src/nnrp/client/transport.py:831-835 | after any history the window is its last window_size samples, the counter the length of the degraded run ending now, and it triggers exactly when the last K full windows were all degraded |
| MigrationMonitor.MigrationTriggerMonitor.TakeSnapshot | src/nnrp/client/transport.py:840-901 | a window that is not full changes nothing; a full one reports medians, jitter and timeout rate, and as reasons exactly those figures that are beyond their limits, in order |
| MigrationMonitor.MigrationTriggerMonitor.CheckWindow | src/nnrp/client/transport.py:869-886 | the four comparisons collect exactly the reasons that hold: timeout rate above, throughput below, round-trip time above and jitter above its limit |
| MigrationMonitor.RunIff | src/nnrp/client/transport.py:887-901 | the run of degraded windows is at least k long if and only if each of the last k full windows was degraded |
| MigrationMonitor.IntMedianIs | src/nnrp/client/transport.py:856-867 | the median of round-trip times and of jitter is the middle of the values in ascending order, or the floor of the mean of the two in the middle |
| MigrationMonitor.RealMedianIs | src/nnrp/client/transport.py:857-857 | the median throughput is the middle of the values in ascending order, or the mean of the two in the middle |
| MigrationMonitor.StepsAt | src/nnrp/client/transport.py:859-867 | jitter is taken over one step between any two neighbouring round-trip times, and each step is their distance |
| MigrationMonitor.FiguresNext | src/nnrp/client/transport.py:852-855 | samples that timed out are counted and give no other figure; the others give their round-trip time and throughput, in order |
| Suppression.AfterIsLastFresh | src/nnrp/client/native.py:720-729 | the kept ids are the last 4096 insertions of ids that were absent when added, each once |
| Suppression.StaysUntil | src/nnrp/client/native.py:720-729 | an id absent when added stays suppressed until 4096 further absent ids have arrived, and is then gone unless added again |
| Suppression.AgainIsNoRenewal | src/nnrp/client/native.py:720-729 | adding a suppressed id again changes nothing |
| Suppression.CancelledResults.Evict | src/nnrp/client/native.py:728-729 | the eviction loop keeps exactly the last keys up to the limit |
| Suppression.CancelledResults.RememberIdentity | src/nnrp/client/native.py:720-729 | one id is added to the keys of one session, the oldest beyond 4096 leave, and no other session changes |
| Suppression.CancelledResults.RememberFrame | src/nnrp/client/native.py:704-710 | a session without an id remembers nothing |
| Suppression.CancelledResults.RememberOperation | src/nnrp/client/native.py:712-718 | the same for operations |
| Suppression.CancelledResults.IsCancelledResult | src/nnrp/client/native.py:731-737 | a result is suppressed exactly when its frame or its operation is among the last 4096 cancelled of its session |
| RecoveryTicket.TicketRoundTrip | src/nnrp/client/native.py:118-161 | every ticket is read back unchanged |
| RecoveryTicket.TicketReencode | src/nnrp/client/native.py:133-161 | every accepted encoding is a legal ticket's and is what that ticket encodes to |

## Left out

- Tcp.Connection.ReadPackets: takes the chunks and the way reading ends as arguments; asyncio waiting, wake-ups, the idle timer and socket setup are not modelled.
- Tcp.Connection.Receive: does not model the race between an arriving packet, the terminal error and the timeout; an empty queue times out.
- Quic.Connection.HandleStreamData: stream reset, stop-sending, datagrams and connection termination are not modelled; the first stream id the QUIC library offers is an argument.
- ServerSession.NativeRuntimeServerSession.PollNative: the native side is a fixed sequence of events of which a poll takes any number up to its maximum; events that do not decode and exceptions in the middle of a batch are outside the model.
- ServerSession.NativeRuntimeServerSession.NextEvent: the deadline is a number of empty polls it still allows; a call without a timeout is the same call with enough of them.
- ServerSession.NativeRuntimeServerSession.ReceiveSubmit: the deadline is a number of polls, as for NextEvent.
- ServerReply.AtMostOneTerminal: a call is four atomic steps (begin, worker answers, settle, close); cancellation of the awaiting task only delays the settle step and is not a step of its own.
- ClientSession.NativeRuntimeSession.AwaitEvent: a refusal by the native side raises before any state changes and is not modelled; no event is an empty answer.
- ClientSession.NativeRuntimeSession.DispatchRuntimeFrame: metadata is reduced to the operation id it names, and the native verdict is an argument.
- ClientSession.NativeRuntimeSession.Cancel: the native call and the removals are one step, as they are in close; what a submit recorded in between meets is what LostIff says of those removals.
- ResultBody.ResultIdsSource: speaks of reading the tensor of an accepted result; a client reads no tensor, and so no ids, when the payload bitmap names none.
- The unbounded client drain with an event kind (src/nnrp/native.py:4359-4382) discards events of other kinds and is not part of the account.
- Dispatch, iteration and payload-family wrappers, handle and buffer lifetimes and the session metadata helpers around the two sessions: thin forwarding or foreign calls.
- TransportSelection.SelectProvider: `list.sort` and `sorted` are a stable insertion sort; where the comparator has no cycle the sorted list is unique, and where it has one only the insertion order is claimed. Messages of errors and the loading of providers are not modelled.
- TransportSelection.Median: summarising probe samples into metrics before the median is not modelled.
- OrderedBuffer.FrameResultBuffer.Add: `heapq` is an ascending list, its contract for pushes and pops; the waiting coroutines are not modelled.
- MigrationMonitor.MigrationTriggerMonitor.Observe: floating point is replaced by real arithmetic.
- Suppression.CancelledResults.IsCancelledResult: how a session id is found on a session object is not modelled; it is given or absent.
- Bodies.BodyRoundTrip: memory views are sequences of bytes; sharing of buffers is not modelled.
- Metadata.SubmitRoundTrip: the five reserved values of the record, which no check reads, are written as zero, as every builder does, and dropped when read.
- ResultBody.PushRoundTrip: of RESULT_PUSH metadata only the fields its validators use are modelled, and their wire record only by the ranges of the fields.
- SubmitBody.SubmitAccepted: the branch of `build_frame_submit_packet` for submits without a tensor payload is not modelled; SubmitRequest.tensor never takes it.
- MixedBodies.MixedSubmitAccepted: takes inputs without references, as the mixed builder does.
- ResultBody.AssembledPush: the partial, stale and degraded result builders only preset arguments of the tensor builder and have no members here.
- TypedFrames.TypedFramesRoundTrip: a payload kind is its bit number and a bitmap a set of bits; schema binding checks are not modelled.
- ExtensionFrames.ExtensionFramesRoundTrip: the registry of known extension types is an optional set of kinds; without one every kind is known.
- Artifact discovery, endpoint parsing, TLS setup, capability negotiation, caches, recovery and lifecycle records beyond the ticket: plumbing or single checks that would add only easy members.
