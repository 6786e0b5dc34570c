# Ergo hardware wallet application: transaction streaming, attestation and codecs

A Dafny model of the core of the Ergo application for Ledger devices, with proofs.

A transaction does not fit into the device. The host sends it in small messages; four nested
machines (transaction, box, input, token table) feed a hasher as the bytes pass, a fifth one
drives them, and totals and the description of the current output are kept beside. Input boxes
are attested before: the device hashes a box, computes its id and hands out authenticated frames
with the value and at most four tokens each, which the signing session takes back.

## How it is built

- `reference.dfy` is the yardstick: the transaction as the host describes it, with no message
  boundaries, and its serialization.
- `box_serializer.dfy`, `input_serializer.dfy`, `full_serializer.dfy`, `signing.dfy`,
  `attestation.dfy` and `application.dfy` give each machine as a step function with the source's
  branches and errors; `accounting.dfy`, `output_info.dfy` and `ergo_tree.dfy` are what they call.
  Beside each step function stands the invariant that couples it to the yardstick and a lemma that
  the step keeps it (`full_refinement.dfy` for the transaction serializer).
- `runs.dfy` carries the invariant through every sequence of host messages and user answers.
  `theorems.dfy`, `totals.dfy`, `agreement.dfy`, `message.dfy`, `chunking.dfy` and `joining.dfy` draw
  the conclusions; `serializer_runs.dfy` draws them for the serializer alone.
- `screens.dfy` follows the user through a run: what was asked, why, and what each answer permits.
  `change.dfy` follows change outputs back to the key and path they were sent with.
- `parsing.dfy` reads the hashed bytes back with the device's own integer reader, which fixes the
  yardstick's serialization from outside; `messages.dfy` fixes the layout of the messages.
- `limits.dfy` says which transactions can be signed at all and shows that every signed one is of that
  kind. `witness.dfy`, `acceptance.dfy` and `completeness.dfy` show the converse: the device's state is
  known from what was described, so every message on the way to such a transaction is accepted, and a
  run from power-on signs it. `counterexamples.dfy` gives the runs that show where the theorems end,
  most of them as transactions within the limits.
- `contexts.dfy`, `serializer_contexts.dfy`, `session_contexts.dfy` and `app_context.dfy` are the
  same machines in the form of the source: objects whose fields change in place, loops over
  buffers, callbacks into other objects. Every method is proved against its step function, up to
  `AppContext.Serve`, which runs the whole device.
- `gve.dfy`, `zigzag.dfy`, `rw_buffer.dfy`, `safe_int.dfy`, `base58.dfy` and `blake2b.dfy` are the
  codecs, the checked arithmetic and the hash buffering below; `bytes.dfy` and `tx_types.dfy` hold
  shared vocabulary.

The hash is known by what it absorbed; the box id is a parameter function of those bytes. The
authentication code is ideal: a frame is accepted exactly if the device issued it. Randomness,
keys, path checks and the user's decisions arrive with each event. The input/box union of
src/ergo/tx_ser_full.h is a tagged value (a tag beside the two objects in the object layer); the
operations require the variant they read, and the run invariant shows that this always holds.

## What turned out differently

- `add_box` does not check that the previous box is complete (src/ergo/tx_ser_full.c:292-312). The
  hash of a finished transaction is its serialization if and only if as many outputs were opened as
  announced (`Theorems.FinishedBytes`), and the totals shown are those of the transaction if and only
  if nothing was lost in abandoned outputs (`Totals.TotalsExact`). `Counterexamples.OpenedTwice` is a
  run from power-on to a signature in which neither holds.
- The length of a tree is not hashed into a box id, so the bytes of a box alone do not determine its
  tokens. Attested frames and signed totals agree if and only if all attestations of the id agree
  (`Agreement.AgreementExact`), for instance if their trees have one length and the hash no collision
  among them; `Counterexamples.MixedIsSigned` is a signed run where they do not.
- The lengths of trees, registers and extensions are not in the signed message either. Two signed runs
  over one message signed the same transaction if and only if these lengths are the same
  (`Message.SignedMessageDetermines`); `Counterexamples.LengthsNeeded` gives two signed runs with one
  message and different transactions.
- On devices with the BAGL interface a refusal at the warning that an output cannot be clear-signed
  does not end the session. A refusal ends it if and only if it was another screen
  (`Theorems.RefusalEndsSession`), and the warning comes exactly for complete outputs that are neither
  address, change nor fee (`Theorems.WarningExact`). In `Counterexamples.WarningPassed` the user rejects
  at the warning and the session goes on to a signature.
- A 32-bit signed number is read back as written exactly between -2^30 and 2^30 - 1
  (`Zigzag.RoundTripI32`), because the pattern is sign-extended before it is written.
- The integer reader accepts ten continuation bytes (`Gve.OverlongAccepted`).
- Seeking the write cursor before the read cursor succeeds and leaves the buffer inconsistent
  (`RwBuffers.RwBuffer.SeekWriteSet`).
- A short token index fails without putting the box context into its error state; the transaction
  serializer above goes into its own (`SerializerContexts.BoxContext.AddTokens`).
- doc/INS-21-SIGN-TRANSACTION.md:66 and doc/INS-20-ATTEST-BOX.md:14 speak of at most 20 tokens; the
  code has 100, and so does the model.
- Whatever follows the path in a change message (0x18) is ignored (`Messages.PathExact`).
- The code accepts a fee or change tree whatever tree size was announced, as long as no chunk came
  before; the model follows the code.

## Model

| member | source | states |
|---|---|---|
| `Runs.After` | src/context.c:14-29 | After any sequence of host messages and user answers from power-on, the device is in step with the transaction described and the boxes attested, and no handler meets the input/box union in the wrong variant. |
| `Runs.NextKeeps` | src/commands/signtx/stx_handler.c:277-343 | One event of any kind keeps that invariant: signing, attestation, other commands, the user's answer. |
| `Runs.SignKeeps` | src/commands/signtx/stx_handler.c:277-343 | Every signing APDU keeps the invariant and none of them returns a signature; signatures come only from the user's answer. |
| `Runs.AttestKeeps` | src/commands/attestinput/ainpt_handler.c:147-181 | Every attestation APDU keeps the invariant; a first message that is taken permits the attestation at once to a known host only, and shows the question to the user to anyone else. |
| `Screens.SignedIfApproved` | src/commands/signtx/stx_ui_bagl.c:155-168 | In every run a response is a signature if and only if the user approves the review screen and the signature arithmetic succeeds. |
| `Screens.AnswerExact` | src/commands/signtx/stx_ui_bagl.c:155-168 | In every run: what each answer to each screen leads to (a refused review or consent ends the command, an approved consent permits the attestation, the warning only goes away); any APDU while a screen is shown is answered "busy" and changes nothing. |
| `Screens.ScreenAlways` | src/commands/signtx/stx_handler.c:277-343 | In every run a review screen stands exactly before a finalized operation, the question about an attestation before a fresh one, and the warning before an output that cannot be clear-signed. |
| `Screens.SignedAsReviewed` | src/commands/signtx/operations/stx_op_p2pk.c:455-487 | What is signed is exactly the state in which subcommand 0x20 asked for the review; nothing has changed since and no other answer came between. |
| `Screens.AttestPermitted` | src/commands/attestinput/ainpt_handler.c:71-117 | In every run the current attestation has its first message, is for the box announced there, and takes data if and only if the host was known then or the user approved the question since. |
| `Screens.AttestedConsented` | src/commands/attestinput/ainpt_handler.c:108-116 | Every attested box was announced and attested in a part of the run in which a known host or the user's approval permitted it. |
| `Screens.SessionStarted` | src/commands/signtx/stx_handler.c:61-89 | In every run the current signing session was started by an accepted 0x01 with valid parameters, has its number, and every subcommand taken since bears that number and had the screens and keys it needs. |
| `Screens.OtherNumberEnds` | src/commands/attestinput/ainpt_handler.c:147-181 | A message under another number is answered "bad session" and ends the command, in signing and in attestation. |
| `Theorems.SignedInputsConsented` | src/commands/signtx/stx_handler.c:119-180 | Behind every signature, each frame of each input is of a box attested for a known host or with the user's approval. |
| `Change.ChangeGenuine` | src/commands/signtx/operations/stx_op_p2pk.c:256-297 | In every run the tree of each change output pays to the key found for its own subcommand 0x18 (its x coordinate and the parity of its y), and while the output is the last one the path kept for the screen is that subcommand's path. |
| `Change.ChangeStep` | src/commands/signtx/operations/stx_op_p2pk.c:256-297 | A subcommand makes the last output a change output if and only if it is 0x18 and the output had no tree; other change outputs keep their trees. |
| `Change.PathStep` | src/commands/signtx/stx_output.c:36-47 | The path kept for a change output is the accepted one, and no later message for the output alters it. |
| `Parsing.SignedMessageReads` | src/ergo/tx_ser_full.c:127-386 | In every run, given the lengths of trees, registers and extensions, the signed message behind the commitment reads as exactly the transaction described, unless an output was abandoned. |
| `Parsing.TxRead` | src/ergo/tx_ser_full.c:127-386 | An independent reader (numbers by the device's integer reader, the rest by length) takes the serialization of a complete transaction apart into that transaction, leaving nothing. |
| `Parsing.BoxRead` | src/ergo/tx_ser_box.c:66-281 | Read from its bytes, a complete box gives value, tree, height, tokens and registers in this order, whatever follows. |
| `Parsing.EntryRead` | src/ergo/tx_ser_box.c:198-241 | The bytes of a token are its place or its id, and then its amount, whatever follows. |
| `Parsing.BoxIdReads` | src/commands/attestinput/ainpt_handler.c:41-50 | What is hashed into a box id reads as the attested box with its tokens in full, then the transaction id, then the place. |
| `Messages.StartDataExact` | src/commands/signtx/stx_handler.c:91-110 | 0x10 is read with these four counts if and only if the message is these counts in order, big-endian, and nothing else. |
| `Messages.BoxDataExact` | src/commands/signtx/stx_handler.c:196-218 | 0x15 is read with these five numbers if and only if the message is these numbers in order and nothing else. |
| `Messages.AttestExact` | doc/INS-20-ATTEST-BOX.md:34-40 | The first message of an attestation announces this box if and only if its first 55 bytes are transaction id, place and the box's numbers in order. |
| `Messages.InitExact` | src/commands/attestinput/ainpt_handler.c:71-111 | It is taken if and only if it has 55 or, with a token, 59 bytes and announces at most 100 tokens and at most 32768 bytes of tree and of registers. |
| `Messages.PathExact` | src/commands/signtx/stx_handler.c:25-31 | A path is read if and only if its length and its big-endian components stand at the front and there are one to ten of them. |
| `Messages.ParametersExact` | src/commands/signtx/stx_handler.c:61-73 | A session is opened with this path if and only if the message is a network byte, the path, four bytes of token if announced, and nothing else. |
| `Messages.AddTokensExact` | src/ergo/tx_ser_box.c:181-260 | What an accepted token message adds to the box is exactly the list it spells: ids or places below the announced count, each before its amount. |
| `Messages.IdsExact` | src/ergo/tx_ser_full.c:198-290 | The ids recorded from an accepted message of ids are the whole message. |
| `Messages.FrameHead` | src/commands/attestinput/ainpt_response.c:21-61 | A frame begins with box id, number of frames, its own number, value and number of its tokens, four in all but the last. |
| `Messages.TokenInFrame` | doc/INS-20-ATTEST-BOX.md:115-125 | The n-th token of a box stands in frame n / 4 at byte 43 + 40 (n mod 4): id, then amount. |
| `Runs.AcceptedFrame` | src/commands/signtx/stx_handler.c:119-180 | Under an ideal code, a frame the signing session accepts is a frame of a box this device attested, field by field. |
| `Runs.GetFrameStep` | src/commands/attestinput/ainpt_handler.c:137-145 | Handing out a frame changes nothing but the set of issued frames, and what is issued is a frame of the attested box. |
| `Theorems.SignatureSound` | src/commands/signtx/operations/stx_op_p2pk.c:455-487 | In every run a signature is returned only to the user's approval of the review screen, only in state FINALIZED with the serializer FINISHED and all counters zero, over the serialization of the described transaction if and only if as many outputs were opened as announced, with totals that are exact for all outputs opened and exact for the transaction if and only if nothing was lost in abandoned outputs, with inputs from frames of attested boxes, and with fee and change boxes carrying genuine scripts. |
| `Theorems.SignedReviewExact` | src/commands/signtx/stx_amounts.c:66-81 | Behind a signature with nothing lost, the review list is exactly the tokens the transaction mints or burns, each once. |
| `Totals.TotalsExact` | src/commands/signtx/stx_amounts.c:24-64 | Totals kept for all outputs opened are those of the finished transaction if and only if the abandoned ones had no change or fee value counted and no amount of any token. |
| `Totals.CountedExact` | src/ergo/tx_ser_full.c:292-312 | The books of the finished transaction are those of all outputs opened exactly if every incomplete box had no tree and no tokens yet. |
| `Theorems.EverySession` | src/commands/signtx/operations/stx_op_p2pk.c:111-297 | In every reachable state of a session: ERG and token totals are the exact integer balances, the announced ids stand unchanged in a table of at most 100, a fee is refused exactly if it exceeds what is left, and the output shown is the last one, classified by its whole tree. |
| `Theorems.FinishedBytes` | src/ergo/tx_ser_full.c:127-386 | A finished serializer has hashed base + TxBytes of the transaction, whatever the message boundaries, if and only if no output was opened before the previous one was complete; all counters are zero and everything announced has arrived. |
| `Completeness.SignedExactly` | src/commands/signtx/operations/stx_op_p2pk.c:111-297 | A device can be made to sign a transaction, abandoned outputs included, if and only if it is within the limits: everything announced is there, inputs come in order from frames of boxes the device attests, sizes are at most 32768, ids and input tokens fit a table of 100, sums fit the counters, the inputs pay change and fees, fee and change scripts are genuine, no token of an output follows an amount of the same token, and the tree of an abandoned output stopped at a multiple of 255 bytes. |
| `Completeness.SignReady` | src/commands/signtx/stx_handler.c:277-343 | From any idle state in which the frames of its inputs were handed out, a transaction within the limits is signed, and no other box is attested for it. |
| `Completeness.AttestedExactly` | src/commands/attestinput/ainpt_handler.c:147-181 | A device can be made to attest exactly the complete boxes with distinct full token ids, at most 100 of them, and tree and registers of at most 32768 bytes. |
| `Limits.SignedWithin` | src/commands/signtx/operations/stx_op_p2pk.c:455-487 | Every transaction behind a signature is within those limits. |
| `Limits.ExactKept` | src/commands/signtx/operations/stx_op_p2pk.c:111-297 | Every accepted subcommand keeps the description within the limits, and the token table is exactly the announced ids followed by the new input ids in order of appearance. |
| `Limits.LoopNoRepeat` | src/commands/signtx/stx_output.c:96-108 | In an accepted token message no token follows an amount of the same token other than zero. |
| `Acceptance.PairsAccepted` | src/commands/signtx/stx_amounts.c:4-22 | The tokens of a frame are taken whenever the sums and the table have room for all of them. |
| `Acceptance.FirstFrameAccepted` | src/commands/signtx/stx_handler.c:157-180 | Between two inputs, the first frame of the next one is taken whenever counters, table and extension size allow. |
| `Acceptance.KnownTreeTaken` | src/commands/signtx/operations/stx_op_p2pk.c:256-279 | A fee or change tree is taken by an open box without a tree whenever the inputs pay it. |
| `Acceptance.TokenTaken` | src/ergo/tx_ser_box.c:181-260 | An output token with an announced index is taken whenever none of it was given and its balance stays in range. |
| `Counterexamples.SomethingIsSigned` | src/commands/signtx/stx_handler.c:277-343 | On every device some run ends in a signature over one complete output, so the theorems about signatures are not empty. |
| `Counterexamples.OpenedTwice` | src/ergo/tx_ser_full.c:292-312 | On every device a run from power-on opens an output, makes it a fee box, abandons it and finishes another: it ends in a signature over something other than the transaction, and a fee of 5 is shown although no box of the transaction pays one. |
| `Counterexamples.MixedIsSigned` | src/commands/attestinput/ainpt_response.c:21-61 | On every device a run attests two boxes with one id, and signs a transaction whose only input is made of the first frame of the one and the second of the other and agrees with neither. |
| `SerializerRuns.FromStartToFinish` | src/ergo/tx_ser_full.c:127-386 | Every run of the serializer alone, from init to FINISHED, has hashed base + TxBytes if and only if no box was opened before the previous one was complete; counters are zero and the totals exact for all boxes opened. |
| `SerializerRuns.OnlyBoxOrder` | src/ergo/tx_ser_full.h:55-58 | Of all serializer calls only a box call before the first box would read the union through the wrong variant. |
| `Theorems.ErrorEndsSession` | src/commands/signtx/stx_handler.c:19-23 | Any error answered by the signing handler leaves no current command, except where the handler refuses before touching the context (screen busy, bad P2 of 0x01). |
| `Theorems.RefusalEndsSession` | src/commands/signtx/operations/stx_op_p2pk.c:341-349 | In every run a refusal is answered "denied", never with a signature, and a failed answer ends the session if and only if the screen was not the warning that an output cannot be clear-signed; a refused warning leaves operation and description untouched and concerns an output that is complete and neither address, change nor fee. |
| `Theorems.WarningExact` | src/commands/signtx/operations/stx_op_p2pk.c:415-441 | In every run, after an accepted output message the warning is shown exactly if the device warns and the last output described is complete, neither fee nor change, and its whole tree is no address. |
| `Counterexamples.WarningPassed` | src/commands/signtx/operations/stx_op_p2pk.c:341-349 | On every device a run from power-on is rejected at the warning and still ends in a signature, with no new session started in between. |
| `Theorems.NoSessionRefuses` | src/commands/signtx/stx_handler.c:277-343 | Without a session, after any events without a new 0x01 and whatever other command became current, every subcommand but 0x01 is answered BUSY, or BAD_STATE (WRONG_SUBCOMMAND if unknown) with no command current afterwards. |
| `Theorems.NoSignatureWithoutStart` | src/context.c:25-29 | Once no session is current, no sequence of events without a new 0x01 yields a signature. |
| `Witness.AttestBox` | src/commands/attestinput/ainpt_handler.c:147-181 | Every box within the limits is attested when it is sent, whatever its size, from any idle state. |
| `Witness.FrameRead` | src/helpers/input_frame.c:4-20 | Any frame the device issued, sent back with its code and an extension length, is accepted and read as the frame of its box with that length. |
| `Agreement.InputAgrees` | src/ergo/tx_ser_input.c:40-96 | An input completed from issued frames counts the value of the attested box once and each of its tokens once, in order, for every attestation of its id, if those agree with each other. |
| `Agreement.AgreementExact` | src/commands/attestinput/ainpt_response.c:21-61 | For a given id: whatever inputs can be assembled from issued frames agree with all attestations of the id, if and only if these attestations agree among themselves. |
| `Agreement.FramesCanBeMixed` | src/ergo/tx_ser_box.c:181-260 | A concrete pair of boxes with one id (the tree length is not hashed) whose frames mix into an input that agrees with neither attestation: the condition is needed. |
| `Agreement.TreeLengthsDecide` | src/ergo/tx_ser_box.c:86-151 | If the hash has no collision among the attestations of an id, equal tree lengths are enough for them to agree. |
| `Agreement.SignedInputsAgreeByLength` | src/commands/signtx/stx_handler.c:119-180 | In every signed run, each input whose id has no collision and one tree length counts exactly what was hashed into that id. |
| `Agreement.SignedInputsAgree` | src/commands/signtx/stx_handler.c:119-180 | Behind every signature, each input whose id is unambiguous counts exactly what was hashed into that id. |
| `Joining.JoinedExec` | src/commands/signtx/operations/stx_op_p2pk.c:130-297 | Wherever the operation accepts two consecutive messages of a tree, registers, extension, id list or token list, it accepts the joined operation message and reaches the same state. |
| `Joining.SessionJoined` | src/commands/signtx/operations/stx_op_p2pk.c:111-297 | Anywhere in an accepted list of operation messages two such messages may be replaced by the joined one, and the operation goes on exactly as before. |
| `Chunking.CutAnywhere` | src/commands/signtx/operations/stx_op_p2pk.c:130-297 | The same for the transaction described: joined messages describe what the separate ones do. |
| `Chunking.SameTransactionSameMessage` | src/commands/signtx/operations/stx_op_p2pk.c:111-297 | Two finalized sessions that describe the same transaction have hashed the same message, namely its serialization. |
| `Message.SameMessageSameTx` | src/ergo/tx_ser_full.c:127-386 | Transactions with equal messages have equal inputs, data inputs, ids and outputs, tokens included, if and only if their trees, registers and extensions have equal lengths. |
| `Message.SignedMessageDetermines` | src/commands/signtx/operations/stx_op_p2pk.c:455-487 | Two signed runs over one message have signed the same transaction if and only if the lengths of trees, registers and extensions are the same. |
| `Counterexamples.LengthsNeeded` | src/ergo/tx_ser_box.c:66-84 | On every device two runs from power-on sign one message, and their transactions differ in a tree and registers. |
| `Reference.SameBytesSameBox` | src/ergo/tx_ser_box.c:66-260 | Once the tree length is known, the bytes of a box with full token ids determine its value, tree, height and tokens. |
| `Reference.SameBytesSameValue` | src/ergo/tx_ser_box.c:86-126 | The value of a box can always be read back from its bytes. |
| `Reference.BoxesEmittedIncomplete` | src/ergo/tx_ser_full.c:292-312 | A box left incomplete puts bytes into the hash that belong to no finished box. |
| `SigningRefinement.ExecKeeps` | src/commands/signtx/operations/stx_op_p2pk.c:111-297 | Every subcommand fails or keeps serializer, totals and output in step with the transaction described so far. |
| `SigningRefinement.TreeChunkKeeps` | src/commands/signtx/operations/stx_op_p2pk.c:225-254 | A tree chunk, in whatever cut, leaves the output classified by the tree received so far and the hash advanced by exactly the chunk. |
| `SigningRefinement.KnownTreeKeeps` | src/commands/signtx/operations/stx_op_p2pk.c:256-279 | A fee or change tree is accepted only as the whole tree of its box, which is then shown as fee or own address. |
| `SigningRefinement.InputFrameKeeps` | src/commands/signtx/stx_handler.c:157-180 | Frame 0 opens an input with its value and frame count; every frame adds its tokens to that input only. |
| `SigningRefinement.OutputTokensKeeps` | src/commands/signtx/operations/stx_op_p2pk.c:281-288 | Output tokens are resolved with the announced ids, no matter what inputs appended to the table since. |
| `FullRefinement.InitKeeps` | src/ergo/tx_ser_full.c:163-196 | After the start the hash holds the number of inputs and nothing has been received. |
| `FullRefinement.AddTokensKeeps` | src/ergo/tx_ser_full.c:198-211 | Announced ids fill the front of the table in order; the input stage begins when all have arrived. |
| `FullRefinement.AddInputKeeps` | src/ergo/tx_ser_full.c:213-236 | A new input is opened only when the one before is complete and one is still expected. |
| `FullRefinement.AddInputTokensKeeps` | src/ergo/tx_ser_full.c:238-255 | A frame counts its tokens; the last frame of the last input moves on to data inputs, ids and outputs with the bytes in reference order. |
| `FullRefinement.AddExtensionKeeps` | src/ergo/tx_ser_full.c:257-267 | Extension bytes are hashed as they come and complete the input exactly at the announced size. |
| `FullRefinement.AddDataInputsKeeps` | src/ergo/tx_ser_full.c:269-290 | Data input ids are hashed in order; the last one is followed by the ids and the number of outputs. |
| `FullRefinement.AddBoxKeeps` | src/ergo/tx_ser_full.c:292-312 | A new box starts with its value behind everything hashed before, an abandoned box included. |
| `FullRefinement.EndBoxStepKeeps` | src/ergo/tx_ser_full.c:314-386 | A box step counts the box down exactly when the box is complete; the last one finishes the transaction. |
| `FullRefinement.AddBoxTreeKeeps` | src/ergo/tx_ser_full.c:314-328 | A tree chunk extends the last output, its hash and its value in the totals, and nothing else. |
| `FullRefinement.AddBoxKnownTreeKeeps` | src/ergo/tx_ser_full.c:330-358 | A fee or change tree completes the tree of the last output and is counted as such. |
| `FullRefinement.AddBoxTokensKeeps` | src/ergo/tx_ser_full.c:360-375 | Tokens extend the last output, its hash and the token balances. |
| `FullRefinement.AddBoxRegistersKeeps` | src/ergo/tx_ser_full.c:377-386 | Registers extend the last output and its hash. |
| `FullSerializer.ErrorAbsorbs` | src/ergo/tx_ser_full.c:7-35 | In state ERROR every operation refuses with BAD_STATE. |
| `InputSerializer.AddTokensKeeps` | src/ergo/tx_ser_input.c:40-96 | Frames are taken under one id, in order, starting from 0; the last writes id, empty proof and, without extension, an empty extension. |
| `InputSerializer.AddExtensionKeeps` | src/ergo/tx_ser_input.c:98-115 | An extension is hashed chunk by chunk and finishes the input exactly when its announced size has arrived. |
| `InputSerializer.PairLoopKeeps` | src/ergo/tx_ser_input.c:57-74 | The token loop adds every (id, amount) pair of the frame once and only appends to the table. |
| `BoxSerializer.InitKeeps` | src/ergo/tx_ser_box.c:86-126 | A box begins with its value; too many tokens or oversized parts are refused. |
| `BoxSerializer.AddTreeKeeps` | src/ergo/tx_ser_box.c:128-151 | The hash grows by the chunk; all but the last chunk have 255 bytes; with the last one height and token count follow. |
| `BoxSerializer.AddKnownTreeKeeps` | src/ergo/tx_ser_box.c:153-179 | A fee or change script is hashed whole, behind whatever chunks of the tree came before. |
| `BoxSerializer.AddTokensKeeps` | src/ergo/tx_ser_box.c:181-260 | Each token is hashed by index or id with its amount, reported once, and counted down; the last closes the box if no registers follow. |
| `BoxSerializer.ShortIndexExact` | src/ergo/tx_ser_box.c:207-214 | A token message ends in a short index exactly if its whole entries are accepted, tokens are still expected, and one to three bytes are left over. |
| `BoxSerializer.ShortAndBadIndex` | src/ergo/tx_ser_box.c:207-214 | One byte instead of an index, and an index outside the table, fail with the same code; only the first is a short index. |
| `BoxSerializer.AddRegistersKeeps` | src/ergo/tx_ser_box.c:262-281 | Registers are hashed as they come and finish the box exactly at the announced size. |
| `Accounting.AddInputKeeps` | src/commands/signtx/stx_amounts.h:22-25 | Input values are summed exactly or refused. |
| `Accounting.AddInputTokenKeeps` | src/commands/signtx/stx_amounts.c:4-22 | The balance at the first place of an id grows by the amount, every other entry stays, ids are only appended. |
| `Accounting.AddOutputKeeps` | src/commands/signtx/stx_amounts.c:24-47 | Change and fee reduce what is left, fee is also summed, other outputs change nothing: value + change + fee = inputs. |
| `Accounting.AddOutputTokenKeeps` | src/commands/signtx/stx_amounts.c:49-64 | The balance at the first place of the id falls by the amount; an id not in the table is refused. |
| `Accounting.FeeNeverOverflows` | src/commands/signtx/stx_amounts.c:34-40 | The fee overflow branch is unreachable: a fee is refused exactly if it exceeds what is left. |
| `Accounting.NonZeroCount` | src/commands/signtx/stx_amounts.c:66-72 | The number of entries that are not zero. |
| `Accounting.NonZeroIndex` | src/commands/signtx/stx_amounts.c:74-81 | The k-th non-zero place, or 0xFF exactly when there are not that many. |
| `Accounting.SelectionExact` | src/commands/signtx/stx_output.c:116-131 | Selection is increasing and one to one: every non-zero place is selected by one number below the count. |
| `Accounting.ReviewListExact` | src/commands/signtx/stx_amounts.c:66-81 | The review list is exactly the tokens whose counted inputs and outputs differ, each once. |
| `OutputInfo.AddTreeChunkShows` | src/commands/signtx/stx_output.c:58-94 | Given that only a last chunk may be short, the classification is that of the complete tree, and a script's hasher has absorbed exactly the tree. |
| `OutputInfo.FinishShows` | src/commands/signtx/stx_output.c:110-114 | Marking the box finished finalises a script's hasher if the tree is complete and not otherwise, and never twice. |
| `OutputInfo.AddTokenShows` | src/commands/signtx/stx_output.c:96-108 | The amounts shown are those of the box, at the first place of each id. |
| `ErgoTree.ParseExact` | src/ergo/ergo_tree.c:48-72 | A tree is recognised as P2PK or P2SH exactly if it is prefix, key or hash, and suffix, and that key or hash comes out. |
| `ErgoTree.GenerateParse` | src/ergo/ergo_tree.c:36-46 | The change tree generated for a key is the P2PK prefix, 2 or 3 by the parity of y, and x; it is recognised as P2PK with the key that stands in it. |
| `ErgoTree.PaysToOne` | src/ergo/ergo_tree.c:36-46 | Two keys share their tree if and only if x and the parity of y are the same. |
| `SafeInt.CheckedAddU64` | src/common/safeint.h:6-10 | Succeeds exactly if the sum fits; the destination is untouched otherwise. |
| `SafeInt.CheckedSubU64` | src/common/safeint.h:12-16 | Succeeds exactly if the difference is not negative. |
| `SafeInt.CheckedAddI64` | src/common/safeint.h:18-28 | Succeeds exactly if the signed sum is in range, despite the wrapping unsigned comparisons. |
| `SafeInt.CheckedSubI64` | src/common/safeint.h:30-40 | Succeeds exactly if the signed difference is in range, despite the wrapping unsigned comparisons. |
| `Attestation.InitKeeps` | src/commands/attestinput/ainpt_handler.c:71-117 | A new attestation session stands for the announced box, of which nothing but the value is hashed. |
| `Attestation.EndStepKeeps` | src/commands/attestinput/ainpt_handler.c:22-50 | When the box is complete its id is the hash of box bytes, transaction id and index, and the box is attestable: each token once, at most 100. |
| `Attestation.TokensKeeps` | src/commands/attestinput/ainpt_handler.c:125-129 | The token list kept is the token list hashed, in order and without repetition. |
| `Attestation.GetFrameGenuine` | src/commands/attestinput/ainpt_response.c:21-61 | A frame handed out is the frame of that number of the attested box, under the device's code. |
| `Frames.FramesCount` | src/commands/attestinput/ainpt_response.c:11-14 | At least one frame, enough for all tokens, and none to spare. |
| `Frames.SharesPartition` | src/commands/attestinput/ainpt_response.c:39-52 | The frames of a box in order carry each of its tokens once. |
| `Frames.FrameReadBack` | src/helpers/input_frame.c:4-20 | A message whose signed part is an issued frame is read as exactly that frame: no 8-bit length wraps and the code is looked for right behind the signed bytes. |
| `Contexts.TokenTable.Find` | src/ergo/tx_ser_table.h:32-38 | The first place of the id, or NOT_FOUND exactly if it is absent. |
| `Contexts.TokenTable.Add` | src/ergo/tx_ser_table.h:40-46 | Appends the id and returns its place, or changes nothing when the table is full. |
| `Contexts.TokenTable.AddAll` | src/ergo/tx_ser_table.c:4-47 | The loop takes whole ids up to the announced number and tells whether all have arrived. |
| `Contexts.TokenTable.HashInto` | src/ergo/tx_ser_table.c:49-65 | The hasher gets the announced number and then exactly the announced ids. |
| `Contexts.AmountsContext.AddInput` | src/commands/signtx/stx_amounts.h:22-25 | In place, as the accounting step; the value stays when it does not fit. |
| `Contexts.AmountsContext.AddInputToken` | src/commands/signtx/stx_amounts.c:4-22 | In place, as the accounting step, through table lookup, append and checked addition. |
| `Contexts.AmountsContext.AddOutput` | src/commands/signtx/stx_amounts.c:24-47 | In place, as the accounting step. |
| `Contexts.AmountsContext.AddOutputToken` | src/commands/signtx/stx_amounts.c:49-64 | In place, as the accounting step; the table is not touched. |
| `Contexts.StateByte` | src/commands/signtx/stx_output.c:9-12 | Kind and the two flags share one byte without disturbing each other. |
| `Contexts.OutputContext.AddTreeChunk` | src/commands/signtx/stx_output.c:58-94 | On the packed state byte, as the classification step. |
| `Contexts.OutputContext.MaybeFinished` | src/commands/signtx/stx_output.c:22-34 | A script's hasher becomes its digest exactly when both flags are set. |
| `Contexts.OutputContext.AddToken` | src/commands/signtx/stx_output.c:96-108 | In place, as the token step: an amount already set is refused. |
| `Contexts.OutputContext.SetBip32` | src/commands/signtx/stx_output.c:36-47 | Only an output without a kind becomes a change output. |
| `Contexts.OutputContext.SetFee` | src/commands/signtx/stx_output.c:49-56 | Only an output without a kind becomes a fee output. |
| `Contexts.OutputContext.SetBoxFinished` | src/commands/signtx/stx_output.c:110-114 | Sets the flag and finalises a script whose tree is set. |
| `Contexts.OutputContext.IsBlind` | src/commands/signtx/operations/stx_op_p2pk.c:34-38 | On the packed state byte: both flags set and a kind that is neither address, own path nor fee. |
| `SerializerContexts.InputContext.AddTokens` | src/ergo/tx_ser_input.c:40-96 | The loop over pairs, the hashing and the state change together are the input step; on every error the state is ERROR. |
| `SerializerContexts.InputContext.AddExtension` | src/ergo/tx_ser_input.c:98-115 | In place, as the extension step; on every error the state is ERROR. |
| `SerializerContexts.AttestedTokens.Take` | src/commands/attestinput/ainpt_handler.c:52-69 | A token is recorded unless the table is full or the id occurred before. |
| `SerializerContexts.OnToken` | src/commands/signtx/operations/stx_op_p2pk.c:55-65 | The callback updates output and totals, or the attested list, and stops at the first refusal. |
| `SerializerContexts.BoxContext.Init` | src/ergo/tx_ser_box.c:86-126 | In place, as the box start. |
| `SerializerContexts.BoxContext.TreeIsAdded` | src/ergo/tx_ser_box.c:66-84 | Type callback, height, token count and the next state, as the tree-added step. |
| `SerializerContexts.BoxContext.AddTree` | src/ergo/tx_ser_box.c:128-151 | In place, as the tree step; on every error the state is ERROR. |
| `SerializerContexts.BoxContext.AddTokens` | src/ergo/tx_ser_box.c:181-260 | The loop that consumes the buffer is the token step; after an error the state is TREE_ADDED exactly if it was before and the message ends in a short index, and ERROR otherwise. |
| `SerializerContexts.BoxContext.AddRegisters` | src/ergo/tx_ser_box.c:262-281 | In place, as the register step; on every error the state is ERROR. |
| `SessionContexts.FullContext.Init` | src/ergo/tx_ser_full.c:163-196 | Clears the context and starts a transaction, or ends in ERROR. |
| `SessionContexts.FullContext.AddTokens` | src/ergo/tx_ser_full.c:198-211 | In place, as the id step; on every error the state is ERROR. |
| `SessionContexts.FullContext.AddInput` | src/ergo/tx_ser_full.c:213-236 | In place, as the input step; reads the union as an input only. |
| `SessionContexts.FullContext.InputFinished` | src/ergo/tx_ser_full.c:139-152 | Counts an input down and opens the next stages when none is left. |
| `SessionContexts.FullContext.AddInputTokens` | src/ergo/tx_ser_full.c:238-255 | In place, as the frame step; reads the union as an input only. |
| `SessionContexts.FullContext.AddExtension` | src/ergo/tx_ser_full.c:257-267 | In place, as the extension step; reads the union as an input only. |
| `SessionContexts.FullContext.AddDataInputs` | src/ergo/tx_ser_full.c:269-290 | The loop over data input ids, as the data input step. |
| `SessionContexts.FullContext.AddBox` | src/ergo/tx_ser_full.c:292-312 | The union now holds the new box, whatever it held before. |
| `SessionContexts.FullContext.AddBoxTree` | src/ergo/tx_ser_full.c:314-328 | In place, as the tree step; reads the union as a box only. |
| `SessionContexts.FullContext.AddBoxKnownTree` | src/ergo/tx_ser_full.c:330-358 | In place, as the fee or change step; reads the union as a box only. |
| `SessionContexts.FullContext.AddBoxTokens` | src/ergo/tx_ser_full.c:360-375 | In place, as the token step with the announced ids. |
| `SessionContexts.FullContext.AddBoxRegisters` | src/ergo/tx_ser_full.c:377-386 | In place, as the register step; the finished box is counted. |
| `SessionContexts.OperationContext.StartTx` | src/commands/signtx/operations/stx_op_p2pk.c:111-128 | The serializer starts and the totals are cleared. |
| `SessionContexts.OperationContext.AddFrame` | src/commands/signtx/stx_handler.c:157-180 | Frame 0 opens an input and adds its value; every frame adds its tokens. |
| `SessionContexts.OperationContext.AddTreeChunk` | src/commands/signtx/operations/stx_op_p2pk.c:225-254 | Serializer first, then the output information with the same chunk, then the finish check. |
| `SessionContexts.OperationContext.Execute` | src/commands/signtx/stx_handler.c:292-341 | Any subcommand moves the objects exactly as the operation's step function says. |
| `AppContext.AttestContext.CheckFinished` | src/commands/attestinput/ainpt_handler.c:41-50 | A finished box gets its id and the number of its frames is reported. |
| `AppContext.AttestContext.Tokens` | src/commands/attestinput/ainpt_handler.c:125-129 | In place, as the attestation step. |
| `AppContext.AttestContext.WritePairs` | src/commands/attestinput/ainpt_response.c:49-52 | The loop writes the pairs of the chosen tokens in order. |
| `AppContext.AttestContext.GetFrame` | src/commands/attestinput/ainpt_response.c:21-61 | The frame built in the buffer, with its code, or the error for a bad index. |
| `AppContext.Device.HandleSign` | src/commands/signtx/stx_handler.c:277-343 | The handler on the global context is the signing part of the application step. |
| `AppContext.Device.HandleAttest` | src/commands/attestinput/ainpt_handler.c:147-181 | The handler on the global context is the attestation part of the application step; a first message that is taken is permitted at once to a known host only, and otherwise asks the user. |
| `AppContext.Device.HandleAnswer` | src/commands/signtx/operations/stx_op_p2pk.c:455-487 | The response guard: nothing is signed or permitted without approval, a refusal is "denied" and ends the command unless the screen was the warning, and a signature ends it too. |
| `AppContext.Device.Handle` | src/context.c:25-29 | Any event moves the objects exactly as the application's step function says. |
| `AppContext.Serve` | src/context.c:14-29 | Running the objects through any list of events gives the responses of the run, and every signature among them answers an approval and is justified at its moment. |
| `Gve.PutU64` | src/common/gve.c:76-86 | The loop writes the encoding of the number and ten bytes are enough. |
| `Gve.GetU64` | src/common/gve.c:59-74 | The loop returns the number of the groups read modulo 2^64, the bytes used, and success exactly as Accepts says. |
| `Gve.VlqSize` | src/common/gve.c:76-86 | Encodings are minimal: k bytes suffice exactly for the numbers below 128^k. |
| `Gve.VlqDigits` | src/common/gve.c:76-86 | Byte k is the k-th base-128 digit, lowest first, with the high bit set on all but the last. |
| `Gve.ReadsUpTo` | src/common/gve.c:59-74 | The reader takes bytes up to the first without the high bit, at most ten, and no further. |
| `Gve.BuffersSuffice` | src/ergo/tx_ser_full.c:121-125 | A u16 takes at most 3 bytes, a u32 at most 5, a u64 at most 10, so the serializers' buffers always suffice. |
| `Gve.RoundTrip` | src/common/gve.c:59-86 | Reading back what was written gives the number and uses exactly the bytes written, whatever follows. |
| `Gve.PrefixFree` | src/common/gve.c:76-86 | Encodings with anything behind them are equal only for equal numbers and equal rests. |
| `Gve.Canonical` | src/common/gve.c:59-86 | Writing back a complete encoding reproduces it exactly when its last group is not empty. |
| `Gve.OverlongAccepted` | src/common/gve.c:59-74 | Ten continuation bytes are accepted. |
| `Gve.RefusesExactly` | src/common/gve.c:59-74 | Refused are exactly the inputs of fewer than ten bytes that all ask for more. |
| `Zigzag.BijectionI64` | src/common/zigzag.h:20-26 | Zigzag is a bijection between i64 and u64. |
| `Zigzag.BijectionI32` | src/common/zigzag.h:12-18 | The 32-bit pattern is a bijection between i32 and u32. |
| `Zigzag.RoundTripUnsigned` | src/common/gve.c:20-48 | Every u16 and u32 is read back as written. |
| `Zigzag.RoundTripI64` | src/common/gve.h:34-36 | Every i64 is read back as written. |
| `Zigzag.RoundTripI16` | src/common/gve.h:54-56 | Every i16 is read back as written. |
| `Zigzag.RoundTripI32` | src/common/gve.h:42-44 | An i32 is read back as written exactly if it lies in -2^30 .. 2^30 - 1; all others read as too big. |
| `RwBuffers.RwBuffer.WriteBytes` | src/common/rwbuffer.c:93-103 | All bytes are appended, or none, exactly if they fit. |
| `RwBuffers.RwBuffer.WriteBE` | src/common/rwbuffer.c:34-91 | A number is appended big-endian and reads back. |
| `RwBuffers.RwBuffer.ShiftData` | src/common/rwbuffer.c:105-111 | Unread bytes move to the front unchanged. |
| `RwBuffers.RwBuffer.SeekWriteSet` | src/common/rwbuffer.c:9-15 | The cursor moves if the offset is in the buffer; the buffer stays consistent exactly if it is not before the read cursor. |
| `RwBuffers.RwBuffer.SeekWriteEnd` | src/common/rwbuffer.c:26-32 | The same, counted from the end. |
| `RwBuffers.RwBuffer.SeekWriteCur` | src/common/rwbuffer.c:17-24 | The cursor advances exactly if there is room. |
| `RwBuffers.RwBuffer.PutVlq` | src/common/gve.c:76-86 | The encoding is appended whole, or not at all, exactly if it fits. |
| `RwBuffers.EncodeLocal` | src/ergo/tx_ser_full.c:121-125 | A fresh buffer of 4 bytes takes every u16 and one of 10 every u64: the buffer error branches are unreachable. |
| `Base58.Encode` | unit-tests/utils/base58.c:109-158 | The early-stop conversion yields the reference encoding, or fails exactly when a size limit is exceeded. |
| `Base58.AddByte` | unit-tests/utils/base58.c:128-138 | One byte of the early-stop loop: the number becomes 256 n + b, no digit is lost left of the stop, and the stop stays inside the digits that k + 1 bytes need. |
| `Base58.Convert` | unit-tests/utils/base58.c:125-139 | The buffer ends up holding the whole number; the stop is positive before every byte, so its decrement never wraps. |
| `Base58.RoomSuffices` | unit-tests/utils/base58.c:125-125 | n*138/100 + 1 digits hold every number of n bytes, for every n. |
| `Base58.DividePass` | unit-tests/utils/base58.c:79-85 | One in-place pass divides the number by 256 and returns the remainder. |
| `Base58.Unpack` | unit-tests/utils/base58.c:76-92 | The passes produce the bytes of the number, last byte first. |
| `Base58.Decode` | unit-tests/utils/base58.c:46-107 | The reference decoding, or failure exactly for bad lengths, letters or room. |
| `Base58.AlphabetExact` | unit-tests/utils/base58.c:19-44 | The letters are the digits and ASCII letters but 0, O, I and l, in ASCII order, and the table is their inverse. |
| `Base58.EncodingExact` | unit-tests/utils/base58.c:109-158 | The digits of the reference encoding spell the same number in base 58 and have as many leading zeros. |
| `Base58.DecodeEncode` | unit-tests/utils/base58.c:46-158 | Decoding the reference encoding gives the bytes back, leading zeros included. |
| `Base58.EncodingFitsDecoder` | unit-tests/utils/base58.c:54-56 | No encoding of at most 120 bytes exceeds the decoder's 164 characters. |
| `Base58.EncodeThenDecode` | unit-tests/utils/base58.c:46-158 | For every input of at most 120 bytes decode(encode(x)) = x, unless the encoding has fewer than two characters. |
| `Base58.TooShortToDecode` | unit-tests/utils/base58.c:54-56 | That happens exactly for the empty string and for one byte below 58. |
| `Blake2b.State.Update` | unit-tests/utils/blake2b-ref.c:206-229 | The state after an update is a function of all bytes so far: full blocks folded, last block held back, counter equal to the bytes compressed. |
| `Blake2b.State.Final` | unit-tests/utils/blake2b-ref.c:231-250 | The result is the BLAKE2b hash of everything absorbed, made of exactly the calls that the standard asks for; a second call is refused. |
| `Blake2b.DigestIsHash` | unit-tests/utils/blake2b-ref.c:206-250 | The one-shot digest calls the compression function on 128-byte blocks that are the data and fewer than 128 zeros (128 for empty data), counting 128, 256, ... and in the end the length of the data, with the last-block flag on the last call only. |
| `Blake2b.OneTranscript` | unit-tests/utils/blake2b-ref.c:206-250 | Those calls are determined by the data. |
| `Blake2b.State.IncrementCounter` | unit-tests/utils/blake2b-ref.c:61-64 | Two 64-bit words count modulo 2^128. |
| `Blake2b.HashChunks` | unit-tests/utils/blake2b-ref.c:206-250 | Every way of cutting the data into updates gives the hash of the whole data. |

## Left out

- Everything on the screen: screen texts, address formatting, the contents of output screens, and the
  rule that shows no screen for a change output already approved; whether screens could be shown is
  part of the event.
- The elliptic-curve and secure-element side: key derivation, the Schnorr commitment and signature, the
  HMAC itself and the random session id; they arrive as parameters of the event.
- Failures of the hasher: the model's hasher always absorbs.
- Status words: the tables that map result codes of one layer to those of the next are collapsed into one
  error type, and some codes that only the host could tell apart are one error here.
- `bip32_path_validate`, the network id check and the comparison with a known application: one flag of the
  event stands for all of them.
- The scratch use of the output's path field by the change subcommand before the output is checked
  (src/commands/signtx/stx_handler.c:235-254): the path is a value here, so this aliasing is not captured.
- Callbacks are bound when a context object is made, not registered by pointer after each init; a missing
  callback exists only as the attestation session's ignored type and finish events.
- The reading cursor of APDU buffers: handlers read their parameters with functions of the whole message
  (`Application.ReadCommand`), not by moving a cursor.
- The commands for addresses, public keys, application name and version: they only appear as an event that
  makes another command current.
- Joining.SessionJoined: speaks of messages to the operation; a joined tree message is longer than one
  APDU carries, since only a last chunk may be shorter than 255 bytes.
- Chunking.CutAnywhere: speaks of descriptions only and therefore asks that id lists are cut between ids and
  token lists between tokens; Joining.SessionJoined needs no such condition, as the device refuses other cuts.
- Theorems.SignatureSound: says nothing about the signature's bytes, only about the message and the moment.
- The rounds and constants of BLAKE2b: the compression function is a parameter.
- Little-endian writes and the reading half of the read-write buffer, which would only add easy members.
- The APDU transport, the dispatcher, non-volatile storage and the fuzzing harnesses.
