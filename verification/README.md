# Proofs about the wallet and payments packages

A Dafny 4.11 model of the parts of this repository where a mistake would be hard to
see by reading, with proofs of what those parts promise. `dafny verify dfyconfig.toml`
checks everything.

## What is modelled

**Solana v0 transactions.** `WireFormat.dfy` and `Transactions.dfy` define the wire
format and its strict parser, `Reader.dfy` the imperative reader, proved to return what
that definition says. `Layout.dfy` is the grouping of accounts by privilege,
`Compiler.dfy` the general compiler with its privilege map, `SplPayment.dfy` the
hand-laid-out payment encoder, and `Refinement.dfy` the argument that both mean the same.
`SplVerify.dfy` and `Channel.dfy` are the checks on what a wallet returns: what acceptance
implies, and what is always accepted. `Mint.dfy` is the Token-2022 extension scan.
`Pda.dfy` and `Programs.dfy` hold address derivation and the program addresses.

**Sign-in sessions.** `SiwxSession.dfy` cuts each async operation at its awaits. The
class methods are the segments; a state machine over their specifications interleaves
any number of pending operations over one storage cell. `MppSession.dfy` and
`AutoReconnect.dfy` do the same for the metering client and the reconnect manager.

**Texts and numbers.** `Authenticate.dfy` is the `WWW-Authenticate` tokenizer and
`AuthenticateGrammar.dfy` the texts it accepts (sections 11.2, 11.6.1 and 5.6.4 of
RFC 9110), `SiwxGrammar.dfy` and `SiwxMessage.dfy` the sign-in
text of CAIP-122 and EIP-4361, `SiwxText.dfy` exactly the texts its parser accepts,
`Base58.dfy` base58 and the address test, `Amounts.dfy` decimal amounts
and `ContractSignature.dfy` the ERC-6492 envelope and the ERC-1271 call.
`Bytes.dfy`, `Text.dfy`, `Radix.dfy` and `Numerals.dfy` are shared.

## Where the code does less than one might expect

Each line names the lemma that shows it; the table has the conditions under which the
code does meet the property:

- A wire with repeated account keys parses, but re-serialising it by address gives the
  same bytes only when every index is a first occurrence (`Transactions.RepeatedKeyIsLost`,
  `Transactions.ReserializeExact`).
- A restore that reads between a write and its undo publishes a session whose sign-in
  ended superseded, which its own caller never publishes (`packages/siwx/src/session.ts:472-477`);
  memory then differs from storage, which is clean (`SiwxSession.RestoreCanPublishDiscarded`).
- A statement that starts like a field, or text with surrounding white space, is printed
  but not read back (`SiwxMessage.RoundTripExactly`).
- A restore ends with memory equal to storage exactly when storage still holds what it
  read (`SiwxSession.RestorePublishesWhatItRead`). A refresh that writes between the two, and is
  then undone, leaves a session in memory over empty storage with nothing pending
  (`SiwxSession.RestoreOverRefreshParts`).
- A parsed message whose trimmed statement starts like a field, or whose request id is
  empty, is not read back after printing (`SiwxText.ReprintExactly`).
- An undo that has read storage removes whatever is there when it acts, also the record of
  a newer sign-in, which `packages/siwx/src/session.ts:474-476` says is left alone
  (`SiwxSession.UndoRemovesNewer`).
- The rollback of a failed voucher signing adds units without the 64-bit check
  (`MppSession.RollbackCanExceedBound`), and a voucher signed while its channel is
  force-closed and replaced is recorded on the replacement
  (`MppSession.VoucherCanLandOnReplacement`).
- `cancel` under a running attempt lets a second attempt start beside it
  (`AutoReconnect.CancelAllowsSecondAttempt`).
- The envelope reader takes signed words that the ABI encoding does not have
  (`ContractSignature.SignedPayloadIsAccepted`), and the call encoder writes a malformed length
  for a signature with half a byte (`ContractSignature.CallDecodes`).

## Model

| member | source | states |
|---|---|---|
| Bytes.Equal | packages/core/src/solana-wire.ts:25-31 | compares whole byte strings: true exactly when they are equal |
| Bytes.LittleEndianRoundTrip | packages/core/src/solana-payment.ts:162-179 | a fixed-width little-endian integer that fits reads back as itself |
| WireFormat.EncodeShortVec | packages/core/src/solana-wire.ts:33-45 | the loop writes the compact length of every number |
| WireFormat.ShortVecExact | packages/core/src/solana-payment.ts:534-546 | the strict reader accepts exactly the compact lengths of numbers below 2^21, each as its number, leaving the rest |
| WireFormat.ManyExact | packages/core/src/solana-payment.ts:563-596 | reading n items accepts exactly the concatenation of n encoded items |
| WireFormat.InstructionParserExact | packages/core/src/solana-payment.ts:589-596 | the instruction reader accepts exactly the serialised instructions whose indices are in range |
| WireFormat.ParseRawExact | packages/core/src/solana-payment.ts:554-610 | within 1232 bytes the parser accepts exactly the serialisations of well-formed transactions, each as that transaction |
| Transactions.ReserializeExact | packages/core/src/solana-payment.ts:554-610 | re-serialising the structured fields gives back the wire if and only if every account is named by the first occurrence of its key |
| Transactions.RepeatedKeyIsLost | packages/core/src/solana-payment.ts:554-610 | a wire with a repeated key is accepted and does not come back |
| Transactions.DistinctKeysReserialize | packages/core/src/solana-payment.ts:554-610 | with pairwise distinct keys nothing is lost: the same bytes come back |
| Reading.Reader.Byte | packages/core/src/solana-payment.ts:524-527 | reads the next byte and moves the offset by one, or fails at the end |
| Reading.Reader.Take | packages/core/src/solana-payment.ts:528-533 | reads n bytes and moves the offset past them, or fails |
| Reading.Reader.ShortVec | packages/core/src/solana-payment.ts:534-546 | the loop of at most three bytes reads what the specification of the compact length reads |
| Reading.ReadInstructions | packages/core/src/solana-payment.ts:582-596 | the nested loops resolve every index to a key, or fail on the first one out of range |
| Reading.ParseSolanaTransaction | packages/core/src/solana-payment.ts:554-610 | the whole imperative parser returns what the parsing specification returns, on every input |
| Compiler.MergeIsJoin | packages/core/src/solana-wire.ts:59-72 | the filled map has one entry per used address, in first-use order, whose flags are the join over all uses |
| Compiler.CompileV0 | packages/core/src/solana-wire.ts:54-107 | the loops that fill the privilege map and the one concatenation produce the compiled bytes |
| Compiler.CompiledGroups | packages/core/src/solana-wire.ts:73-82 | the four groups hold exactly the addresses with these privileges, without repetition, the fee payer first |
| Compiler.CompilePreservesMeaning | packages/core/src/solana-wire.ts:54-107 | a compiled transaction that fits a packet parses back to the same instructions in order, blockhash, fee payer at key 0 and distinct keys |
| Compiler.PrivilegesAreTheJoin | packages/core/src/solana-wire.ts:59-89 | read back by position, an address signs (may be written) if and only if it pays the fee or some instruction marks it so |
| Compiler.CompiledOrder | packages/core/src/solana-wire.ts:59-82 | within each group the keys stand in the order in which the instructions first use them |
| Layout.LayoutParses | packages/core/src/solana-payment.ts:554-610 | any grouped layout that fits a packet is accepted and read back unchanged, with its slots and message bytes |
| Layout.LayoutPermissions | packages/core/src/solana-payment.ts:680-692 | with distinct keys the signer and writable tests by position read back the groups |
| Refinement.GrantingLayoutParses | packages/core/src/solana-payment.ts:276-328 | every layout that grants exactly the requested privileges is read back with exactly those signers and writable accounts |
| Refinement.GrantingLayoutRefinesCompiler | packages/core/src/solana-wire.ts:54-107 | such a layout has the compiler's size, and when it fits both parse to the same meaning, key order aside |
| Pda.DerivePda | packages/core/src/solana-channel.ts:154-170 | the bump loop returns the first off-curve candidate from 255 down, or fails |
| Pda.AssociatedTokenHash | packages/core/src/solana-payment.ts:79-102 | a token account is the hash of owner, token program, mint, the highest bump that leaves the curve, the associated-token program and the marker, in this order |
| SplPayment.PaymentInstructionsExist | packages/core/src/solana-payment.ts:181-270 | the instructions exist if and only if the payment passes every check and both token accounts have an address |
| SplPayment.PaymentInstructionsSay | packages/core/src/solana-payment.ts:225-270 | read back from their bytes, the instructions say the limit, the price, the transfer of the amount between the two derived accounts, and the memo |
| SplPayment.BuiltWhenDistinct | packages/core/src/solana-payment.ts:276-328 | a payment is built if and only if it passes its checks and its accounts do not overlap: the size limit never refuses one |
| SplPayment.RolesMeaning | packages/core/src/solana-payment.ts:276-328 | the hand-written account groups are exactly the privileges the payment's instructions ask for |
| SplPayment.BuiltPayment | packages/core/src/solana-payment.ts:276-328 | a built payment is such a layout of its instructions, within the packet limit |
| SplPayment.PaymentRefinesCompiler | packages/core/src/solana-payment.ts:276-328 | whenever a payment is built, self-funded or sponsored, it means what the compiler's transaction of the same instructions means |
| SplVerify.SameInstruction | packages/core/src/solana-payment.ts:712-732 | the comparison loop answers equality of program, accounts and data |
| SplVerify.CountExtras | packages/core/src/solana-payment.ts:743-765 | the loop over extra instructions refuses exactly when one is not harmless, and counts the memos |
| SplVerify.CheckTransaction | packages/core/src/solana-payment.ts:704-780 | the sequence of checks decides the acceptance predicate |
| SplVerify.VerifySignedSplTransfer | packages/core/src/solana-payment.ts:704-780 | returns the wire exactly when the parsed transaction is accepted for this payment |
| SplVerify.TransferAmount | packages/core/src/solana-payment.ts:225-262 | the transfer's data encodes the requested amount and decimals without loss |
| SplVerify.AcceptedPaymentIsIntended | packages/core/src/solana-payment.ts:704-780 | whatever is accepted has exactly one token-program instruction, the intended one, third; the memo once if and only if requested; otherwise only Lighthouse; at most six; required signers exactly fee payer and authority |
| SplVerify.PaymentAcceptedExactly | packages/core/src/solana-payment.ts:704-780 | accepted if and only if the wire parses to the intended transaction: instructions, memo, Lighthouse when allowed, signers, fee payer at key 0, blockhash, both token accounts writable, and an authority signature that verifies over the message |
| SplVerify.SignedPaymentAccepted | packages/core/src/solana-payment.ts:704-780 | the built transaction with a valid authority signature filled in is always accepted |
| SplVerify.RecompiledPaymentAccepted | packages/core/src/solana-payment.ts:704-780 | a recompilation with Lighthouse assertions appended, within six instructions, asking nobody else to sign, is accepted once signed |
| Mint.ScanDecides | packages/core/src/solana-payment.ts:145-157 | on any list of extensions followed by unused space, the scan accepts if and only if no refused type occurs |
| Mint.ScanExact | packages/core/src/solana-payment.ts:145-157 | on every byte string, accepted if and only if it is a list of complete, unrefused extensions and unused space |
| Mint.ScreenedExactly | packages/core/src/solana-payment.ts:140-158 | account data passes if and only if it is 82 bytes, or has at least 166, the mint's account type and a list of complete extensions none of which is refused |
| Mint.ScreenMintExtensions | packages/core/src/solana-payment.ts:140-158 | the offset loop terminates and decides the scan, including the entry that ends beyond the data |
| Mint.ReadMint | packages/core/src/solana-payment.ts:109-122 | a mint is read if and only if it is an initialised mint of a token program and, under Token-2022, passes the screening; the result is its owner and its decimals byte |
| Channel.OpenCarriesInput | packages/core/src/solana-channel.ts:213-279 | the open's data reads back to the salt, deposit, grace period and slot; its sixth account is the channel; exactly these accounts sign and may be written |
| Channel.OpenNamesAccounts | packages/core/src/solana-channel.ts:213-279 | the parsed canonical open names its program and its fourteen accounts, each in its place, the derived ones as hashes of their seeds |
| Channel.CanonicalOpen | packages/core/src/solana-channel.ts:213-279 | the canonical open always fits a packet and grants exactly what its instruction asks |
| Channel.Pigeonhole | packages/core/src/solana-channel.ts:533-585 | n required signatures and n distinct known signers leave no room for another required signer |
| Channel.VerifySignedChannelOpen | packages/core/src/solana-channel.ts:533-585 | the loops return the wire exactly when the parsed transaction is accepted for this open |
| Channel.AcceptedOpenIsIntended | packages/core/src/solana-channel.ts:533-585 | whatever is accepted keeps the open first and unchanged, only Lighthouse after it, its signers exactly the canonical ones and its accounts' write permissions |
| Channel.OpenAcceptedExactly | packages/core/src/solana-channel.ts:533-585 | accepted if and only if the wire parses to the intended open: instruction, Lighthouse after it, signers, fee payer at key 0, blockhash, write permissions, and a payer signature that verifies over the message |
| Channel.SignedOpenAccepted | packages/core/src/solana-channel.ts:533-585 | every open that can be built is accepted once the payer's signature is filled in |
| SiwxSession.SessionStorage.Get | packages/siwx/src/session-storage.ts:114-129 | returns the entry, evicting it when expired; takes effect when called |
| SiwxSession.SiwxSessionManager.PersistBegin | packages/siwx/src/session.ts:478-483 | writes only at the captured generation |
| SiwxSession.SiwxSessionManager.PersistEnd | packages/siwx/src/session.ts:478-494 | publishes at an unchanged generation, else reads storage back in order to undo |
| SiwxSession.SiwxSessionManager.UndoDecide | packages/siwx/src/session.ts:485-493 | removes the entry only when the snapshot was this session |
| SiwxSession.SiwxSessionManager.RestoreRead | packages/siwx/src/session.ts:387-421 | an obsolete read changes nothing; an expired record is removed; anything else supersedes and is published |
| SiwxSession.SiwxSessionManager.SignOutBegin | packages/siwx/src/session.ts:280-286 | supersedes everything pending and empties memory and storage |
| SiwxSession.NoSignedOutIdentityReturns | packages/siwx/src/session.ts:198-286 | in every interleaving, what is in memory or storage descends from a sign-in or restored record of the current sign-out epoch |
| SiwxSession.SignedOutStaysSignedOut | packages/siwx/src/session.ts:276-286 | after a sign-out at any point of any run, memory and storage stay empty until the next sign-in call, whatever was pending |
| SiwxSession.RestorePublishesWhatItRead | packages/siwx/src/session.ts:387-421 | a restore that nothing supersedes, whatever else runs meanwhile, puts in memory what storage held when it was called, nothing included, and moves the generation; memory then equals storage if and only if storage still holds it; an expired record leaves storage |
| SiwxSession.RestoreAgrees | packages/siwx/src/session.ts:387-421 | from any state, with nothing in between, memory equals storage when the restore ends, empty and expired records included |
| SiwxSession.ExpiredRestoreClears | packages/siwx/src/session.ts:412-416 | the end of an expired restore empties memory unless something superseded it |
| SiwxSession.SignInCompletes | packages/siwx/src/session.ts:198-274 | a sign-in that nothing supersedes stores its session when signed and publishes it when written |
| SiwxSession.RefreshCompletes | packages/siwx/src/session.ts:297-364 | a refresh that nothing supersedes replaces the session by one of the same identity with the new signature |
| SiwxSession.SupersededWriteIsTakenBack | packages/siwx/src/session.ts:478-494 | superseded after its write, an operation publishes nothing and takes its own record back out of storage |
| SiwxSession.RestoreOverRefreshParts | packages/siwx/src/session.ts:387-494 | a run from the start that ends with a session in memory, empty storage and nothing pending |
| SiwxSession.DiscardedLeavesNoResidue | packages/siwx/src/session.ts:478-494 | once an operation ended superseded, storage holds its session neither then nor at any later step |
| SiwxSession.RestoreCanPublishDiscarded | packages/siwx/src/session.ts:387-421 | a run in which a restore publishes a discarded session: it reads between the write and its undo |
| SiwxSession.MemorySettledStep | packages/siwx/src/session.ts:387-494 | each step keeps superseded records out of memory if and only if it is no restore publishing a record whose own operation has not published it |
| SiwxSession.DiscardedIsPublishedOnlyByRestore | packages/siwx/src/session.ts:387-494 | along every run memory is free of such records throughout if and only if no restore publishes one; then no discarded session is in memory |
| SiwxSession.RestoresSettledStep | packages/siwx/src/session.ts:387-392 | a step keeps pending restores off such records if and only if it is no restore that reads one |
| SiwxSession.ApartRestoresNeverPublishDiscarded | packages/siwx/src/session.ts:387-494 | when restores are called only while no record is being written or undone, no discarded session is ever in memory |
| SiwxSession.UndoRemovesNewer | packages/siwx/src/session.ts:478-494 | a run in which an undo removes the record a newer sign-in has written and published: memory holds it, storage is empty, nothing is pending |
| SiwxSession.RemovesAnotherExactly | packages/siwx/src/session.ts:485-493 | an undo removes another record if and only if its snapshot held its own session and storage holds a different one by now |
| SiwxSession.UndosOwnStep | packages/siwx/src/session.ts:478-494 | a step keeps every undo on its own record if and only if it starts no write between an undo's read and its decision |
| SiwxSession.UndosRemoveOnlyTheirOwn | packages/siwx/src/session.ts:472-494 | along every run undos stay on their own records if and only if no write starts under one; then none removes another's |
| Authenticate.Tokenizer.Skip | packages/payments-mpp/src/wire.ts:139-146 | the cursor loops take the longest run of a character class |
| Authenticate.Tokenizer.LookParam | packages/payments-mpp/src/wire.ts:148-158 | the lookahead answers whether a parameter starts here, without moving the cursor |
| Authenticate.Tokenizer.ReadQuoted | packages/payments-mpp/src/wire.ts:159-183 | reads a quoted string with its escapes, refusing control characters and a missing end quote |
| Authenticate.Tokenizer.ReadParams | packages/payments-mpp/src/wire.ts:209-237 | reads parameters until the next challenge or the end |
| Authenticate.ParseAuthenticate | packages/payments-mpp/src/wire.ts:133-240 | terminates on every input and returns what the grammar says, or fails |
| Authenticate.ParamUndoesPrint | packages/payments-mpp/src/wire.ts:148-183 | a printed parameter is recognised by the lookahead and read back |
| Authenticate.SchemeIsNoParam | packages/payments-mpp/src/wire.ts:147-158 | the lookahead never takes the next challenge's scheme for a parameter |
| Authenticate.ParseUndoesPrint | packages/payments-mpp/src/wire.ts:133-240 | for every list of challenges with token schemes, distinct lower-case token names and printable values, parsing the comma-joined text returns the list |
| AuthenticateGrammar.AcceptedExactly | packages/payments-mpp/src/wire.ts:133-240 | a field value is accepted as a list of challenges if and only if it is some well-formed text, optional white space, token and quoted values, token68 and empty elements included, that means this list |
| AuthenticateGrammar.MeaningByName | packages/payments-mpp/src/wire.ts:211-226 | the first parameter of each name, compared without case, gives its value; the repetition is flagged exactly when a name occurs twice |
| Authenticate.ExpectedParams | packages/payments-mpp/src/wire.ts:222-226 | the returned parameter map is exactly the printed list |
| SiwxMessage.CreateSiwxMessage | packages/siwx/src/message.ts:155-226 | pushes the lines in order and joins them, or refuses what validation refuses |
| SiwxMessage.ParseSiwxMessage | packages/siwx/src/message.ts:232-387 | the statement and field loops return what the parsing specification returns |
| SiwxMessage.FieldsUndoLines | packages/siwx/src/message.ts:187-226 | the field loop reads back every printed field, in order and once |
| SiwxMessage.CarriedRoundTrip | packages/siwx/src/message.ts:155-387 | validated parameters whose texts are carried come back, absent options as absent |
| SiwxMessage.RoundTripExactly | packages/siwx/src/message.ts:155-387 | the round trip holds if and only if address, statement and name are trimmed, on one line and the statement is no field in disguise |
| SiwxText.ParsedExactly | packages/siwx/src/message.ts:232-387 | a text parses to a message if and only if it is a first line, an address line, statement lines, field lines with strictly increasing labels and the mandatory ones present, and dashed resources, that mean this message, with every part in its grammar |
| SiwxText.CreatedLines | packages/siwx/src/message.ts:155-226 | what is created is exactly these lines, absent options left out |
| SiwxText.ReprintExactly | packages/siwx/src/message.ts:155-387 | a parsed message can always be created again, and parses back to itself if and only if its statement does not start like a field and its request id is not empty |
| Base58.Base58 | packages/payments-mpp/src/session.ts:281-295 | the loops compute the base58 text of the bytes, one digit for the empty string |
| Base58.DecodeUndoesEncode | packages/core/src/address-validation.ts:71-95 | decoding the text of any bytes returns the bytes, in both alphabets |
| Base58.EncodeUndoesDecode | packages/core/src/address-validation.ts:71-95 | every decodable non-empty text is the text of what it decodes to |
| Base58.KeysPass | packages/core/src/address-validation.ts:48-69 | the text of any 32 bytes has 32 to 44 characters and passes the address test |
| Base58.PassingIsOneKey | packages/core/src/address-validation.ts:48-69 | every text that passes is the encoding of exactly one 32-byte string |
| Base58.IsValidSolanaAddress | packages/core/src/address-validation.ts:48-69 | the accumulating loop and the leading-ones count decide the test |
| Base58.DecodeXrplBase58 | packages/core/src/address-validation.ts:71-95 | the loops decode the XRPL alphabet, or refuse |
| Radix.RecodeInverts | packages/core/src/address-validation.ts:48-95 | re-coding digits to another base and back, leading zeros kept, loses nothing |
| MppSession.MppSessionClient.Add | packages/payments-mpp/src/session.ts:420-429 | adds positive units that stay within 64 bits, or refuses |
| MppSession.MppSessionClient.BeginRequest | packages/payments-mpp/src/session.ts:452-483 | up to its first await a request is refused, goes on to open a channel, or takes exactly the metered units for the active one |
| MppSession.MppSessionClient.FailOpen | packages/payments-mpp/src/session.ts:699-726 | a failed open forgets its own channel, or keeps it without its key once the server may have seen it |
| MppSession.MppSessionClient.FinishClose | packages/payments-mpp/src/session.ts:786-790 | removes its own channel only and clears it only when still active |
| MppSession.MeteringConservesUnits | packages/payments-mpp/src/session.ts:419-495 | in every interleaving, accepted units are pending, being signed or signed |
| MppSession.RequestSignsWhatItNames | packages/payments-mpp/src/session.ts:452-493 | on an acknowledged channel with an empty meter a request that names units signs exactly those; with a meter that is not empty it is refused |
| MppSession.RequestSignsTheMeter | packages/payments-mpp/src/session.ts:452-493 | one that names none signs the whole meter and empties it |
| MppSession.NamedUnitsAreSigned | packages/payments-mpp/src/session.ts:452-493 | in every interleaving, units named by requests are being signed, signed or failed |
| MppSession.FailedOpenIsForgottenOrKept | packages/payments-mpp/src/session.ts:708-728 | an open that fails leaves no channel, or, once handed to the server, one that only a forced close can end |
| MppSession.NoVoucherWithoutKey | packages/payments-mpp/src/session.ts:708-728 | once its key is gone no run starts another voucher for a channel |
| MppSession.ClosesAreVouched | packages/payments-mpp/src/session.ts:747-762 | in every run, a cooperative close can start only on an acknowledged channel for which a voucher was recorded while it was active |
| MppSession.FailuresExceedExactly | packages/payments-mpp/src/session.ts:420-493 | from any state, failed signings alone can take the meter past 64 bits if and only if pending and in-flight units together exceed them |
| MppSession.GuardedAddsStayWithinBound | packages/payments-mpp/src/session.ts:420-493 | along every run no failures can exceed 64 bits at any point if and only if each accepted add keeps the reported, unsigned units within them; then the meter stays within them, failures included |
| MppSession.BoundWithoutFailures | packages/payments-mpp/src/session.ts:420-429 | in runs without failed signings the meter stays within 64 bits |
| MppSession.RollbackCanExceedBound | packages/payments-mpp/src/session.ts:490-493 | from a concrete state one failed signing takes the meter past 64 bits |
| MppSession.BoundaryReached | packages/payments-mpp/src/session.ts:420-493 | that state is reached from the start |
| MppSession.ClosesAreLocal | packages/payments-mpp/src/session.ts:786-790 | however late other closes end, a channel stays listed until its own close or its own unsent open fails, and active until then or a replacement |
| MppSession.CloseRemovesItsChannel | packages/payments-mpp/src/session.ts:831-835 | a finished close or forced close removes its channel for good |
| MppSession.SignaturesMisplaceExactly | packages/payments-mpp/src/session.ts:484-497 | from a state with an own voucher, arriving signatures alone can put a foreign one on the active channel if and only if one is pending for another channel |
| MppSession.SigningsOwnStep | packages/payments-mpp/src/session.ts:484-497 | a step keeps pending signatures on the active channel if and only if it opens no channel while one is pending |
| MppSession.OpensAloneKeepVouchers | packages/payments-mpp/src/session.ts:484-497 | along every run this holds throughout if and only if no channel is opened while a signature is pending; then every recorded voucher is the active channel's own |
| MppSession.VoucherCanLandOnReplacement | packages/payments-mpp/src/session.ts:484-497 | a run in which the voucher of a force-closed channel is recorded on its replacement |
| AutoReconnect.AutoReconnectManager.Begin | packages/core/src/auto-reconnect.ts:62-74 | starts only when enabled, with a session and nothing in progress |
| AutoReconnect.AutoReconnectManager.Fail | packages/core/src/auto-reconnect.ts:88-115 | gives up after maxRetries failures, else arms a capped, linearly growing delay |
| AutoReconnect.AutoReconnectManager.ClearSession | packages/core/src/auto-reconnect.ts:117-130 | forgets the session and stops only the latest timer |
| AutoReconnect.ExclusiveStep | packages/core/src/auto-reconnect.ts:62-130 | each step keeps the in-progress flag equal to the attempts in flight if and only if it does not cancel under an attempt |
| AutoReconnect.ExclusiveExactly | packages/core/src/auto-reconnect.ts:62-130 | along every run the flag counts the attempts in flight throughout if and only if nobody cancels under one |
| AutoReconnect.CancelAllowsSecondAttempt | packages/core/src/auto-reconnect.ts:117-123 | after a cancel under an attempt the next call starts a second one beside it |
| AutoReconnect.RetriesAreBounded | packages/core/src/auto-reconnect.ts:62-131 | in every undisturbed run with any overlapping callers and timers: one attempt in flight, at most maxRetries + 1 consecutive failures, onFailed once, exactly when the retries are used up |
| AutoReconnect.GivingUpIsFinal | packages/core/src/auto-reconnect.ts:92-131 | after giving up no caller and no leftover timer starts an attempt until a new session is set |
| AutoReconnect.DisabledNeverAttempts | packages/core/src/auto-reconnect.ts:62-74 | while disabled no run starts an attempt |
| AutoReconnect.CancelStopsLatest | packages/core/src/auto-reconnect.ts:117-123 | a cancel stops the latest timer; if no other is armed and nothing is in flight, no attempt starts until the next call |
| Amounts.ParseUnits | packages/wallet-engine/src/erc20-utils.ts:128-170 | the scan with its dot flag and the digits compute the specified units, or refuse |
| Amounts.UnitsExact | packages/wallet-engine/src/erc20-utils.ts:128-170 | accepts exactly the unsigned decimals with at most d places, as the text's value times ten to the d |
| Amounts.SolExact | packages/core/src/solana-rpc.ts:105-119 | accepts exactly the decimals, perhaps negative, with at most nine places, as their value in lamports |
| Amounts.ParsersAgree | packages/core/src/solana-rpc.ts:105-119 | on unsigned texts both parsers accept the same with the same result at nine places; signed ones only parseSol takes |
| Amounts.ParseUndoesFormat | packages/core/src/solana-rpc.ts:92-119 | formatting then parsing returns every integer amount |
| Amounts.FormatIsCanonical | packages/core/src/solana-rpc.ts:92-103 | every amount is written in its one canonical form: no leading zero, no bare point, no trailing zero behind it |
| ContractSignature.UnwrapUndoesWrap | packages/siwx/src/contract-signature.ts:93-125 | for any factory, calldata and signature, unwrapping the standard encoding plus suffix returns all three, with or without 0x |
| ContractSignature.FieldsAreSlices | packages/siwx/src/contract-signature.ts:93-125 | whatever the words say, every returned field is a slice of the payload and the factory is forty hexadecimal digits |
| ContractSignature.HexFieldExact | packages/siwx/src/contract-signature.ts:105-118 | with hexadecimal words a field is exactly the bytes they point at, or nothing when those run past the end |
| ContractSignature.StrictUndoesWrap | packages/siwx/src/contract-signature.ts:85-92 | a strict decoder, which takes only hexadecimal words, inverts the standard encoding too |
| ContractSignature.StrictDecodeExactly | packages/siwx/src/contract-signature.ts:93-125 | whatever the strict decoder reads the code reads the same; what the code accepts is what the strict one reads if and only if both offset words and the length words they point at are hexadecimal |
| ContractSignature.SignedPayloadIsAccepted | packages/siwx/src/contract-signature.ts:93-125 | for every factory, a whole payload with a signed offset word that the decoder accepts and the strict one refuses |
| ContractSignature.CallDecodes | packages/siwx/src/contract-signature.ts:128-138 | the encoded call decodes to its hash and signature, aligned to 32 bytes, if and only if the hash fits a word and the signature has whole bytes |

## Left out

Assumptions of the model:

- Cryptography and hashing (ed25519, SHA-256, the off-curve test) are function values given as parameters; so are `new URL` and the calendar check of dates.
- Addresses are 32-byte strings. The error path of `key` for malformed base58 is not modelled; base58 itself is, in its own module.
- Every refusal is `None`: the code uses one error per module here, and messages are dropped. The base64 text the verifiers return stands for the wire bytes.
- Numbers are integers: `shortVec` inputs of 2^31 and more, where `>>` wraps, and non-integer JavaScript numbers are not modelled. Memo text is its UTF-8 bytes, so the UTF-8 encoder is not modelled.
- Parameter objects are maps: the `__proto__` key is not modelled. Lower-casing is on ASCII letters; the characters it matters for are ASCII.
- Sessions: a storage call takes effect when it is called and does not reject; the last generation check of `persistIfCurrent` and the caller's publish are one step; ids with signatures are not reused; expiry is a choice of the environment at each check. Timers, callbacks, `has`, `clear` and other tabs writing the same storage are left out.
- MppSession.MppSessionClient.FailOpen: channel ids are taken as unique, which the code gets from a random salt; the network, challenge and key-manager steps between the segments are left out, and nothing is claimed about how many channels are being opened at once.
- AutoReconnect.RetriesAreBounded: the configuration is fixed and callbacks neither throw nor call back into the manager; `updateConfig`, `reset` and the promise each caller waits on are left out.
- MppSession.BoundWithoutFailures: sufficient only; the exact conditions are in `FailuresExceedExactly` and `GuardedAddsStayWithinBound`.
- ContractSignature.UnwrapUndoesWrap: the payload is at most 2^53 - 1 characters, the longest string the language has.

Not modelled:

- The approve, revoke and other owner transactions, token accounts, vouchers' byte layout, top-up, seal and withdraw transactions: the same compiler and parser with other constants.
- The trusted-program checks, RPC clients and wallet connectors: calls into systems outside the code.
- Challenge selection, credential encoding and receipts around the tokenizer, EIP-191 hashing, and the remaining address predicates.
