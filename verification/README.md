# Aegis, verified

Aegis settles parametric drought policies. An insurer seals a risk model to an enclave; a policy
is bound on chain to one weather request; anyone may submit an attested reading of that request;
the enclave scores it against the sealed model and its tee-node signs the decision; anyone may
relay the decision to `PolicySettlement`, which records it once and pays from a pool.

This project models that protocol as one state machine over contract storage, instructions in
flight, enclave memory, signed results and token balances, together with the arithmetic, the byte
encodings, the registration tool and the amount printers it relies on, and proves what the system
promises about them. `dafny verify dfyconfig.toml` checks everything.

## How it is organised

| files | what they hold |
|---|---|
| `Wrappers`, `Radix`, `Bytes`, `Hex` | options and results, digit strings in any base, words and addresses, hexadecimal text |
| `Scoring`, `Enclave`, `Extension` | the ramp and its laws; the enclave on values, with the two-run theorem; the extension as it runs, with mutable big integers |
| `DecisionCodec`, `Signing`, `Requests` | the 96-byte tuple and its three decoders; the signed digest; attested requests and their hash |
| `Contracts`, `OnChain` | what each contract call checks and writes, on values; the contracts as objects with in-place storage and re-entrant calls |
| `World`, `Invariants`, `Preservation`, `Reachability`, `Guarantees`, `Effects`, `Progress`, `Provenance` | the system as a state machine; its invariant; every step keeps it; what follows for every run; what each call does and when; an honest evaluation can always go through; which registration a settled amount goes back to |
| `AbiSpec`, `WebEncoder`, `WebCalls`, `WebProof`, `WebDecoder` | the section "Formal Specification of the Encoding" of the Solidity Contract ABI Specification; the page's encoders and decoders, proved against it |
| `Registration`, `Completing`, `Resuming` | the checkpointed node registration under kills, lost transactions, failed saves and re-runs; what a finished run has done; exactly when a run can be resumed |
| `Units` | the two printers of token amounts and one reader for both |

A state is `Reachable` when some sequence of steps leads to it from deployment. Steps are taken by
anyone in any order: calls with arbitrary arguments (to the contracts, to the registries, which grow
and change status, and to FDC, which comes to accept proofs; and whole trees of such calls made by an
unknown payout executor before it returns or reverts), enclaves processing any instruction any
number of times, and enclaves starting and restarting.

## What is assumed

- Keccak and ecrecover are parameters of every theorem. Nothing is assumed about them globally;
  where a result needs it, the exact pairs of byte strings that must not collide are named
  (`Signing.SigningCollision`, `Signing.Collides`).
- Signatures of enclaves are unforgeable: a signature given to `settle` that recovers to an enclave
  is over something that enclave signed (`World.Unforged`), at every depth of a call tree.
- FdcVerification accepts a proof once it has finalised it and keeps accepting it
  (`World.verifiable`). The registry gives every instruction an id not used before, and only
  InstructionSender feeds this extension.
- Whatever the registry shows in production for the extension that takes its instructions from this
  InstructionSender is an enclave running this code: every change of the registries, at any depth of
  a call tree, leaves it so (`World.MachinesAttested`, `World.AllowedCall`). Other machines may sign
  anything.
- A call that reverts restores its state. The token is a plain EIP-20 token. Pools are deployed
  with the system and make no calls other than their own code; the system's contracts are nobody
  else's caller (`World.CanCall`).
- The chain id fits 256 bits. Lengths of byte strings whose encodings are inverted fit a uint256,
  and on the page every string fits JavaScript's exact integers.

## What was found

- `saveState` overwrites the checkpoint in place. A save that stops half-way leaves a file that does
  not parse, and every later resumed run fails at loading without sending anything, until the tool is
  run without `--resume`, which removes the file; the header comment promises that registration can
  resume after failures. After any history a resumed run gets past loading if and only if it is ready,
  the file is absent or readable, and no torn save is outstanding (`Resuming.ResumesIff`);
  `Resuming.AttestedAndTorn` is a run that tears.
- `RegisterNode` run with `a` alone after an attestation was recorded requests the availability check
  with the zero attestation id. The check uses the recorded id exactly when the command attests or
  nothing was recorded (`Registration.CheckUsesRecordedAttestationIff`).
- `fmtUnits` prints a point and a zero for a token without decimals; it prints as many decimal places
  as the token has exactly when it has any (`Units.FractionIsWholeIff`), and the amount is denoted
  exactly in either case.
- `teeSignature` caches "no such transaction" for good. What it shows is what the node says now exactly
  when every earlier lookup of that transaction threw, or the first that did not gave the same
  (`WebCalls.ShownIsCurrentIff`); a transaction first looked up too early never shows its signature
  (`WebCalls.UnknownStaysUnknown`).
- Registering a model is open to anyone and replaces the model held. A registration is the one a settled
  amount goes back to exactly when no later registration of the policy with that enclave, nor a
  restart, precedes the scoring (`Provenance.RegistrationOfRecord`); `Provenance.LaterRegistrationReplaces`
  is the replacing run.
- `hexToAscii` drops zero bytes, so a symbol is shown unchanged exactly when it has none
  (`WebDecoder.ReadDenomination`).
- The enclave and the relayer ignore dirty padding of an address where the contract reverts; the
  three agree exactly on bytes that re-encode to themselves (`DecisionCodec.DecodersAgree`).

## Model

| member | source | states |
|---|---|---|
| Guarantees.ChainOfCustody | contracts/PolicySettlement.sol:188-248 | over every run, behind each settled policy stand an accepted evaluation whose verified proof hashes to the request the policy was bound to, and a scoring by an enclave of this extension with the model last loaded since it started; the record is exactly that score on that reading, to that evaluation's recipient, or the zero address when nothing is owed |
| Guarantees.OnlyScoredDecisionsSettle | contracts/PolicySettlement.sol:195-225 | although the command is not signed, a signature that passes every check is that of the enclave which scored an accepted evaluation, and the data accepted is exactly that score with that evaluation's policy and recipient |
| Guarantees.ExactlyOnePayment | contracts/PolicySettlement.sol:227-245 | in every reachable state a policy has exactly one unreverted payout call, of the recorded amount to the recorded recipient, when it is settled with an amount, and none otherwise, under any nesting of calls |
| Guarantees.ReentryCannotSettleAgain | contracts/PolicySettlement.sol:230-245 | after any calls an unknown executor makes while it is being called, to the contracts, the token, the registries or FDC, neither the policy nor the instruction being settled passes the checks again |
| Guarantees.SettledAndConsumedCorrespond | contracts/PolicySettlement.sol:214-239 | an instruction is consumed if and only if a settled policy records it, and no two policies record the same one |
| Guarantees.NothingIsUndone | contracts/PolicySettlement.sol:159-170 | whatever happens later, executor swaps included, settlements, consumed instructions, bound triggers, issued instructions and the extension ids cached by both contracts stay as they are |
| Guarantees.EvaluationsMoveForward | contracts/InstructionSender.sol:162-197 | accepted evaluations of one policy have strictly increasing voting rounds, distinct instruction ids, and all prove the one request bound |
| Guarantees.ExtensionIdsAgree | contracts/PolicySettlement.sol:140-157 | the two contracts, scanning a growing registry at different times, cache the same public extension id |
| Guarantees.PaymentsAreConserved | contracts/PolicySettlement.sol:233-245 | amounts asked of executors total the recorded settlements; when every executor configured was a pool, the payout transfers out of the pools bound here are those payouts one by one and in order |
| Guarantees.PoolBalanceIsAccounted | contracts/FxrpPayoutExecutor.sol:71-119 | over every run a pool's balance is its start plus inflows minus payouts minus withdrawals, a payment to itself counting on both sides |
| Guarantees.SignedDecisionSettles | contracts/PolicySettlement.sol:188-248 | the other direction: a decision that an enclave in production signed after scoring settles its still open policy, with no executor needed when nothing is owed, and otherwise moves exactly the scored amount to the recipient if the pool can pay |
| Guarantees.CheckedDecisionPays | contracts/PolicySettlement.sol:241-245 | with a pool as executor or none, a checked decision settles if and only if nothing is owed or there is a pool, the recipient is non-zero and the pool can pay; otherwise the state is unchanged |
| Effects.SettleSucceedsIff | contracts/PolicySettlement.sol:188-248 | settle succeeds if and only if the checks pass and nothing is owed or the executor's call succeeds, a pool's or an unknown one's; a reverted call leaves the state unchanged, and after a successful one the record stands whatever the executor did |
| Effects.SettleMoves | contracts/PolicySettlement.sol:230-245 | a successful settle moves and logs nothing when nothing is owed, one transfer and one call through a pool, and through an unknown executor one call and what its own calls do |
| Effects.DuringThePayout | contracts/PolicySettlement.sol:227-245 | while the executor is called the instruction is consumed, the policy is settled, and nothing else has changed |
| Effects.SettledStandsThroughCalls | contracts/PolicySettlement.sol:214-239 | a settled policy and a consumed instruction survive any calls, forged signatures included |
| Effects.TriggersAreTheOwners | contracts/InstructionSender.sol:155-169 | in every run, each bound trigger is the hash in a call the owner made for that policy |
| Effects.ExecutorIsTheOwners | contracts/PolicySettlement.sol:159-170 | in every run, the executor is one the owner named |
| Effects.ConfigurationSucceedsIff | contracts/PolicySettlement.sol:159-170 | the owners' calls succeed under exactly the stated conditions and write exactly their arguments; anyone else's change nothing |
| Effects.TokensMoveIff | contracts/FxrpPayoutExecutor.sol:71-98 | tokens move by a direct call only from their holder or, withdrawn by its owner, from a pool; a pool bound here pays nobody directly |
| Effects.RegistrationIsForwarded | contracts/InstructionSender.sol:131-153 | anyone's registration is forwarded, exactly its ciphertext, once the extension id is known and the registry accepts; nothing else changes |
| Effects.EvaluationIsForwarded | contracts/InstructionSender.sol:185-226 | when an evaluation of an encoded reading is accepted, in both directions, and that its instruction decodes to the policy, the attested rainfall and the recipient of the call |
| InstructionSending.SetExtensionIdIff | contracts/InstructionSender.sol:116-129 | the id is cached if and only if none was and the sender is registered, and is the first such |
| InstructionSending.BindingIff | contracts/InstructionSender.sol:162-169 | when a trigger is bound, in both directions; the policy is then bound to the hash given and no other policy is touched |
| InstructionSending.EvaluationAcceptedIff | contracts/InstructionSender.sol:185-215 | when an evaluation is accepted, in both directions; only this policy's round moves, to the proof's |
| InstructionSending.ForwardedReading | contracts/InstructionSender.sol:199-211 | the message forwarded decodes to the policy, the third word of the reading and the recipient |
| InstructionSending.RefusalIsTheFirst | contracts/InstructionSender.sol:162-200 | each refusal names the first unmet requirement |
| Settling.SetExtensionIdIff | contracts/PolicySettlement.sol:140-157 | the id is cached if and only if none was and InstructionSender is registered, and is the first such |
| Settling.SwapIff | contracts/PolicySettlement.sol:165-170 | when the executor is swapped, in both directions; it is then the one given and nothing else changes |
| Settling.RefusalIsTheFirst | contracts/PolicySettlement.sol:195-225 | each refusal of settle names the first unmet requirement, with its facts |
| Progress.EvaluatedPolicyCanSettle | contracts/PolicySettlement.sol:188-248 | the assumptions are not empty: from any reachable state, an accepted evaluation of an open policy, an enclave in production holding a model for it and, when something is owed, a pool that can pay lead in two allowed steps to a reachable state where the policy is settled with that model's payout |
| Progress.EvaluationGetsSigned | go/internal/extension/extension.go:157-194 | any enclave holding a model turns an accepted evaluation into a signed decision backed by the scoring recorded for it |
| Progress.ConsumedByItsOwnPolicy | contracts/PolicySettlement.sol:214-239 | the instruction of an evaluation is only ever consumed by settling the policy it was for |
| Progress.HonestSettleIsFeasible | contracts/PolicySettlement.sol:174-182 | relaying exactly what an enclave signed satisfies the unforgeability assumption, for anyone |
| Provenance.RegistrationOfRecord | go/internal/extension/extension.go:122-194 | every settled amount is what the valid model of one REGISTER_MODEL instruction pays on the evaluation's reading, and a registration of the policy with that enclave is that one if and only if no later one, nor a restart, precedes the scoring |
| Provenance.HeldIff | go/internal/extension/extension.go:32-38 | an enclave holds a model for a policy if and only if it is the one last loaded since it started |
| Provenance.LaterRegistrationReplaces | contracts/InstructionSender.sol:136-153 | from any reachable state two allowed steps by anyone make the enclave hold another valid model, and no earlier registration counts any more |
| Reachability.ExecKeeps | contracts/PolicySettlement.sol:188-248 | every on-chain call, at any depth of nesting, keeps the whole invariant and undoes nothing |
| Reachability.ProcessKeeps | go/internal/extension/extension.go:75-194 | an enclave processing any instruction keeps the invariant: its memory matches its history and everything newly signed is backed by a scoring or carries no decision |
| Reachability.RunKeeps | contracts/InstructionSender.sol:118-226 | every feasible run keeps the invariant and extends all histories |
| Registries.FoundIsFirst | contracts/InstructionSender.sol:118-129 | the scan returns the first public extension id whose sender is the target, and nothing only when none is |
| Registries.LaterScanAgrees | contracts/PolicySettlement.sol:140-157 | once a scan succeeds, every scan of a grown registry gives the same id |
| Registries.ScanExtensions | contracts/PolicySettlement.sol:146-157 | the scan loop computes the specified search |
| Tokens.MoveKeepsBalanced | contracts/FxrpPayoutExecutor.sol:114-119 | a token transfer, also to oneself, keeps every account equal to its history |
| OnChain.InstructionSender.SetExtensionId | contracts/InstructionSender.sol:118-129 | write-once caching of the scanned id, or the exact error with storage unchanged |
| OnChain.InstructionSender.RegisterPolicyTrigger | contracts/InstructionSender.sol:162-169 | the object follows the binding that BindingIff pins: owner-only, write-once, and the hash given |
| OnChain.InstructionSender.Evaluate | contracts/InstructionSender.sol:185-226 | the object follows the evaluation that EvaluationAcceptedIff and ForwardedReading pin; the round is rolled back on every later failure |
| OnChain.FxrpPayoutExecutor.ExecutePayout | contracts/FxrpPayoutExecutor.sol:71-86 | the payment is made or the first unmet requirement is named, and then nothing changes |
| OnChain.FxrpPayoutExecutor.Withdraw | contracts/FxrpPayoutExecutor.sol:91-98 | the float is withdrawn or the first unmet requirement is named, and then nothing changes |
| Tokens.PoolCallsMoveOrRefuse | contracts/FxrpPayoutExecutor.sol:71-119 | when each pool call succeeds, in both directions, and what it then moves; a payout never fails at the token, a withdrawal does exactly when the pool is short |
| OnChain.PolicySettlement.SetExtensionId | contracts/PolicySettlement.sol:146-157 | write-once caching of the id InstructionSender is registered under |
| OnChain.PolicySettlement.SetPayoutExecutor | contracts/PolicySettlement.sol:165-170 | owner-only, contracts only, and nothing but the executor changes |
| Settling.CheckAcceptsIff | contracts/PolicySettlement.sol:195-225 | the checks pass with a decision if and only if the data is exactly its encoding, the status is 1, the signature recovers to a machine in production of this extension, the instruction is not consumed, and the policy is bound and open |
| OnChain.PolicySettlement.Settle | contracts/PolicySettlement.sol:188-248 | writes before the call, lets the executor run any further calls on the same objects, undoes everything when it reverts; ends in exactly the state that SettleSucceedsIff and SettleMoves describe |
| OnChain.Chain.Execute | contracts/PolicySettlement.sol:241-245 | the object-level system, with its mutually recursive calls, refines the transition function |
| OnChain.Chain.RunSteps | contracts/PolicySettlement.sol:188-248 | over any feasible run the contract objects end in exactly the state of the run, and that state is reachable, so the guarantees hold of the objects |
| Signing.PreimageLayout | contracts/PolicySettlement.sol:274-301 | where each field stands in the three preimages, byte by byte |
| Signing.RecoversIff | contracts/PolicySettlement.sol:288-324 | a signature r, s, v recovers a machine if and only if s is low, v is 0, 1, 27 or 28, and ecrecover finds that signer for the digest, v, r and s |
| Signing.OtherLengthsAreMalformed | contracts/PolicySettlement.sol:295 | every other length is refused |
| Signing.DigestIsInjective | contracts/PolicySettlement.sol:274-301 | equal digests mean equal chain id, instruction id, status, tag and data, unless keccak collides on one of five named pairs |
| Requests.RequestHashPinsEveryField | contracts/InstructionSender.sol:185-191 | equal request hashes mean equal requests in all seven fields, or a named collision |
| Requests.RainfallOfReading | contracts/InstructionSender.sol:57-61 | of an encoded reading the third word is the rainfall, whatever follows |
| AbiSpec.MemberIsFound | contracts/InstructionSender.sol:228-233 | every member of an encoding is found through its head: static ones there, dynamic ones at their offset |
| AbiSpec.LengthsComeFirst | web/abi.js:66-71 | byte strings and arrays start with their length, and byte strings go on with their bytes |
| AbiSpec.EncodingIsPrefixFree | contracts/InstructionSender.sol:228-233 | an ABI encoding determines a value of its type whatever bytes follow, for nested tuples, arrays and byte strings |
| AbiSpec.EncodingIsInjective | contracts/InstructionSender.sol:228-233 | abi.encode of an argument list is injective on each type |
| Scoring.PayoutIsWhatIsOwed | go/internal/extension/extension.go:199-255 | in the model's own numbers: the payout is the exact rational amount rounded down, limited to the sum insured, unless the reading reaches the trigger or that amount is below the floor, when it is zero |
| Scoring.OwedIsUnique | go/internal/extension/extension.go:232-247 | that amount is determined by the model and the reading |
| Scoring.ProRataBetweenExitAndTrigger | go/internal/extension/extension.go:232-242 | between exit and trigger the ramp is pro rata in the missing rain, to within one unit |
| Scoring.ScoreIff | go/internal/extension/extension.go:214-222 | scoring succeeds if and only if the reading is not negative and the model valid |
| Scoring.ValidIff | go/pkg/types/register.go:171-194 | what makes a model valid, in both directions |
| Scoring.RejectionIsTheFirst | go/pkg/types/register.go:171-194 | a rejected model is rejected for its first fault |
| Scoring.PayoutIsMonotone | go/internal/extension/extension.go:214-255 | over all valid models the payout never falls when rain falls or the dust floor falls, or the trigger, exit level, sum insured or factor rises, one at a time or all together |
| Scoring.RampIsExactWithinOneUnit | go/internal/extension/extension.go:232-242 | before the cap the payout is the exact rational ramp rounded down by less than one unit |
| Scoring.PayoutBounds | go/internal/extension/extension.go:227-254 | a payout never exceeds the sum insured, fits a uint256, is zero or at least the floor, and is zero at or above the trigger |
| Scoring.FullPayoutAtExit | go/internal/extension/extension.go:199-242 | at or below the exit level the ramp is the sum insured times the factor, with no other dependence |
| ExtensionObjects.EvaluatePayout | go/internal/extension/extension.go:214-255 | on the heap, scoring writes only fresh objects, leaves the shared model and constant intact despite aliasing and in-place updates, and returns a fresh object with the value PayoutIsWhatIsOwed describes, or the error |
| ExtensionObjects.Extension.RegisteredModels | go/internal/extension/extension.go:58-73 | /state shows the number of models and nothing else |
| ExtensionObjects.Extension.ProcessRegisterModel | go/internal/extension/extension.go:122-144 | stores exactly the model named, or nothing, and echoes neither policy nor parameters |
| ExtensionObjects.Extension.ProcessEvaluate | go/internal/extension/extension.go:157-194 | answers with the specified decision and changes no model |
| ExtensionObjects.Extension.ProcessAction | go/internal/extension/extension.go:75-114 | the object-level extension refines the value-level enclave for every action |
| Enclave.AnswersAreShaped | go/internal/extension/extension.go:75-194 | every answer repeats the action's id, tag and command, and has status 1 and an empty log or status 0 and no data; nothing else is answered |
| Enclave.RegistrationIff | go/internal/extension/extension.go:122-144 | when a registration succeeds, in both directions, and that it changes exactly the named policy's model |
| Enclave.EvaluationIff | go/internal/extension/extension.go:157-194 | when an evaluation succeeds, in both directions |
| Enclave.FailureIsTheFirst | go/internal/extension/extension.go:122-175 | each failure names the first thing wrong |
| Enclave.ObservationAt | go/internal/extension/extension.go:58-73 | what is observed of each input of a run is the answer by the memory so far and the number of models held after it |
| Enclave.ProcessKeepsModelsValid | go/internal/extension/extension.go:122-144 | every model an enclave holds satisfies Validate after every action |
| Enclave.EvaluationSucceeds | go/internal/extension/extension.go:157-194 | a canonical request for a registered policy never fails: status 1 and 96 bytes that all three decoders read as the same policy, the same recipient and a bounded amount |
| Enclave.OnlyEvaluationsCarryDecisions | go/internal/extension/extension.go:122-194 | status 1 with 96 bytes can only be the decision of a held model on the request decoded |
| Enclave.ObservationsAreSimulated | go/internal/extension/extension.go:58-194 | all results and /state answers of a whole run are computed, without any model, from the public inputs, the registration verdicts and the scored payouts |
| Enclave.RunsAreIndistinguishable | go/internal/extension/extension.go:58-194 | two enclaves with different secret models but equal verdicts and payouts cannot be told apart over any run with restarts |
| DecisionCodec.EncodedTupleReadsBackEverywhere | go/pkg/types/register.go:51-94 | the encoder accepts exactly the uint256 range and all three decoders return what went in |
| DecisionCodec.LayoutIsStandard | go/pkg/types/register.go:21-63 | the 96 bytes are the standard encoding of (bytes32, uint256, address) |
| DecisionCodec.CodecsAcceptIff | go/pkg/types/register.go:51-70 | what the encoder and the decoders accept, in both directions |
| DecisionCodec.DecodersAgree | go/tools/pkg/payout/settle.go:93-120 | on any 96 bytes the relayer and the enclave agree, and the contract accepts exactly those that re-encode to themselves |
| WebEncoder.EncUintIsStandard | web/abi.js:28-45 | an unsigned slot takes exactly the uint256 range and holds the standard word |
| WebEncoder.EncAddressIsStandard | web/abi.js:47-51 | an address slot is the standard padded word |
| WebEncoder.EncDynamicIsStandard | web/abi.js:66-71 | length word, bytes and padding are the standard encoding of a byte string |
| WebEncoder.Utf8Hex | web/abi.js:59-64 | the loop writes two digits for every byte, in order |
| WebEncoder.AppendMembers | web/abi.js:79-90 | the head-and-tail loop, also used by encodeSettle, writes the offset of every member and all payloads |
| WebEncoder.EncDynamicTuple | web/abi.js:76-90 | the tuple is its offset words followed by its payloads |
| WebEncoder.MemberIsAtItsOffset | web/abi.js:76-90 | for any list of whole-byte members, following the offset written for a member finds exactly that member |
| WebEncoder.LaidIsStandard | web/abi.js:76-90 | for dynamic members that layout is the standard tuple encoding |
| WebEncoder.EncodeRequestBody | web/abi.js:92-108 | succeeds exactly when all seven fields are present and then gives the standard encoding in the declared order |
| WebEncoder.BodiesEncodeApart | web/abi.js:92-108 | equal encodings come from objects equal in all seven fields |
| WebEncoder.EncodeTriggerRequestHash | web/abi.js:130-134 | the call's argument is, byte for byte, the preimage the contract hashes for the policy's binding |
| WebProof.ResponseTupleIsTheEncoding | web/abi.js:142-154 | stripping the leading word of an attested response leaves exactly its encoding |
| WebProof.ResponseTupleIff | web/abi.js:142-154 | a response body is found if and only if it stands behind the offset word 32 |
| WebProof.WellFormedIff | web/abi.js:47-57 | evaluate parts are accepted if and only if ids, addresses and nodes are whole and the response is led by the word 32 |
| WebProof.MerklePayloadIsStandard | web/abi.js:158-160 | the proof nodes are the standard encoding of bytes32[] |
| WebProof.EncodeProof | web/abi.js:156-164 | the proof tuple from both payloads, or an error exactly when one of them is malformed |
| WebProof.EncodeEvaluate | web/abi.js:166-174 | the calldata from its parts, for exactly the well-formed ones |
| WebProof.EncodeEvaluateIsCanonical | web/abi.js:142-174 | the spliced calldata is the standard encoding of (policyId, payoutTo, (merkleProof, response)) with the very response attested |
| WebCalls.EncodeSettle | web/abi.js:176-190 | standard encoding of all five arguments for exactly the well-formed ones |
| WebCalls.SettleSignatureReadsBack | web/app.js:257-274 | the offset-and-length walk over any settle calldata returns exactly the signature put in |
| WebCalls.SettleTxCache.TeeSignature | web/app.js:260-274 | after any lookups, the answer is that of the first lookup of the transaction whose walk did not throw, and its own walk if there is none |
| WebCalls.ShownIsCurrentIff | web/app.js:260-274 | what is shown is current if and only if every earlier lookup of the transaction threw or the first that did not gave the same |
| WebCalls.UnknownStaysUnknown | web/app.js:260-274 | a transaction unknown at its first lookup shows no signature ever after |
| WebDecoder.SignedWordReadsBack | web/app.js:111-115 | two's complement reading inverts int256 encoding over its whole range |
| WebDecoder.EvaluationEventReadsBack | web/app.js:236-246 | every evaluation event is read back field by field, negative coordinates included |
| WebDecoder.HexToAscii | web/app.js:126-134 | the loop returns the bytes without the zero ones, and ignores a last odd digit |
| WebDecoder.ReadDenomination | web/app.js:117-134 | the symbol of a (string, uint8) return blob is shown, unchanged exactly when it has no zero byte |
| Registration.Node.Attest | go/tools/pkg/fccutils/registration.go:75-125 | one attestation block: skip with the recorded id, or request, record and save; a request may be refused, or sent and its id lost |
| Registration.Node.Check | go/tools/pkg/fccutils/registration.go:127-156 | the availability-check block |
| Registration.Node.RegisterNode | go/tools/pkg/fccutils/registration.go:60-173 | a run, killed at any point, ends in exactly the file, requests and saves of the specified process |
| Registration.Node.RegisterTee | go/tools/cmd/register-tee/main.go:26-70 | the tool clears the old checkpoint unless it is asked to resume, then runs the registration |
| Registration.RunKeepsSound | go/tools/pkg/fccutils/registration.go:60-173 | one run, however it ends, keeps every stored checkpoint consistent with the requests sent |
| Registration.ResumesConsistently | go/tools/pkg/fccutils/registration.go:60-173 | for any command, kills, lost transactions, failed saves, re-runs and fresh starts: stored steps are a prefix of the plan (rRa for rRap), the recorded check was requested with the recorded attestation, and the production proof is for the recorded check |
| Completing.DoneIff | go/tools/pkg/fccutils/registration.go:60-173 | a run is done if and only if it starts, every owed request is answered, the proof is there, the machine is or comes to be in production, and nothing kills it |
| Completing.DoneSendsWhatIsOwed | go/tools/pkg/fccutils/registration.go:60-173 | a run that is done has sent exactly the requests it owed, in order, to production last unless the machine is there already; has completed every step of its command; and has removed the checkpoint or left it saying so |
| Completing.StoppedWhileAttesting | go/tools/pkg/fccutils/registration.go:75-125 | what an attestation step that stops the run leaves: the file as it was, and its request sent, lost or not made |
| Completing.StoppedWhileChecking | go/tools/pkg/fccutils/registration.go:127-152 | the same for the availability check, which asks nothing when the proxy is out of sync |
| Completing.StoppedBeforeProduction | go/tools/pkg/fccutils/registration.go:158-168 | a run without a proof sends nothing to production; one whose proof is not taken has sent it |
| Resuming.FreshUnlessResumed | go/tools/cmd/register-tee/main.go:26-31 | an invocation starts from nothing unless it resumes or the old file could not be removed |
| Resuming.StartsIff | go/tools/pkg/fccutils/registration.go:34-70 | a run gets past loading if and only if it is ready and the file is absent, or readable and well-formed; it goes on from the stored checkpoint |
| Resuming.RunTearsIff | go/tools/pkg/fccutils/registration.go:49-173 | a run leaves an unparsable file if and only if the last save that touched it was torn, or none did and it was unparsable before, and the run did not remove it |
| Resuming.UnparsableIff | go/tools/pkg/fccutils/registration.go:49-173 | over every history, the file is unparsable if and only if some invocation tore it and none since started fresh |
| Resuming.ResumesIff | go/tools/pkg/fccutils/registration.go:26-70 | over every history, exactly when a resumed run gets past loading |
| Resuming.OnlyTornSavesTear | go/tools/pkg/fccutils/registration.go:49-58 | without a torn save no history ends in an unparsable file, whatever else fails |
| Resuming.TornCheckpointBlocks | go/tools/pkg/fccutils/registration.go:34-70 | on an unparsable file a run that does not clear it sends nothing and changes nothing |
| Resuming.AttestedAndTorn | go/tools/pkg/fccutils/registration.go:90-105 | a run of rRap that tears its first save, and a resumed run that is then blocked |
| Registration.CheckUsesRecordedAttestationIff | go/tools/pkg/fccutils/registration.go:75-152 | when a resumed check uses the recorded attestation, in both directions |
| Registration.LoneCheckForgetsAttestation | go/tools/pkg/fccutils/registration.go:128-143 | the smallest run that does not |
| Units.FmtUnitsDenotes | web/app.js:138-143 | the page's text reads as exactly the amount scaled by its decimals |
| Units.FractionIsWholeIff | web/app.js:138-143 | as many decimal places are printed as the token has, if and only if it has any |
| Units.WithoutDecimals | web/app.js:138-143 | with no decimals it prints a point and a zero |
| Units.PrintersAgree | go/tools/pkg/payout/fassets.go:173-196 | the tools' text is the page's with trailing zeros and a bare point dropped |
| Units.FormatUnitsIsTheTidyText | go/tools/pkg/payout/fassets.go:173-196 | it is the one and only text that denotes the amount and has no leading zero, no trailing fraction zero and no bare point |
| Units.PrintedAmountsDiffer | go/tools/pkg/payout/fassets.go:171-196 | different amounts of one token never print alike, by either printer |

## Left out

- Keccak, ecrecover, ECIES and secp256k1 internals: parameters, with the hypotheses listed above.
- FDC verification, the Data Availability Layer, the TEE registries, the proxy and the tee-node: environment steps; their code is not part of this model.
- go-ethereum's ABI library and JSON parsing: only the 96-byte layout and the visible checks; what decrypting and parsing a registration gives is an input (`Enclave.Opened`). Malformed envelopes that never reach routing are not modelled.
- Log texts of action results are structured values (`Enclave.Failure`) and not strings. Replies other than 200 are one value and are never signed.
- Fees, `msg.value`, claim-back addresses and the random choice of a machine by the registry: any enclave may process any instruction here. Which machine an instruction was meant for has no influence on settlement.
- Events are not recorded. `PolicySettled` emits the decision's recipient also when nothing is owed, where the record holds the zero address.
- The code-size checks of constructors; `setPayoutExecutor` takes whether the address has code as an input.
- Plain EIP-20 only: tokens that charge on transfer, return false or call back are not modelled, so `TransferFailed` means that the pool is short.
- OnChain.PolicySettlement.Settle: an unknown executor acts through a finite tree of calls to the contracts, the token, the registries and FDC, chosen in advance; gas, and calls to contracts outside the model, are not represented.
- OnChain.Chain.Execute: registerModel is a case of this method and not a method of the sender class, since it writes none of the sender's fields.
- WebEncoder.EncodeRequestBody: text is its UTF-8 bytes; a field that is present but not a string is treated as missing.
- WebEncoder.EncUintIsStandard: the 0x prefix and upper-case digits are normalised before the model starts, and a digit that is not hexadecimal is outside the type.
- WebCalls.SettleSignatureReadsBack: awaiting the node and its transport errors are not modelled.
- WebDecoder.HexToAscii: each byte is one character; symbols outside ASCII are shown by byte and not decoded.
- Units.FormatUnitsIsTheTidyText: negative amounts, which settlement data cannot hold, and the text for a missing amount.
- Registration.Node.RegisterNode: all invocations of a history use one command and one state file; polling, sleeps, log lines, what distinguishes pre-registration from a fresh attestation beyond the id it returns, and diagnostics of reverts are not modelled.
- Concurrent access to the model map is serialised by its mutex, so each action is one step.
- HTTP servers, bridges, wallet calls, DOM rendering, command-line output, deployment scripts, the Python and TypeScript scaffold and the deployment checks: plumbing or flat case lists.
- The payout copy used by the end-to-end tool: equality with the original would add nothing.
- Liveness of voting rounds and proof retrieval, and that anyone takes the steps `Progress` shows to be open: it depends on outside providers.
