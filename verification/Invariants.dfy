/** What holds in every state of every run, and what one step can never undo. */
module Invariants {
  import opened Wrappers
  import opened Bytes
  import opened Requests
  import opened Registries
  import opened Tokens
  import opened World
  import DecisionCodec
  import Enclave
  import InstructionSending
  import Scoring
  import Settling

  // ---- what only grows

  ghost predicate SenderGrows(a: InstructionSending.Storage, b: InstructionSending.Storage) {
    && (a.extensionId != 0 ==> b.extensionId == a.extensionId)
    && (forall p :: InstructionSending.TriggerOf(a, p) != ZERO_WORD ==>
          InstructionSending.TriggerOf(b, p) == InstructionSending.TriggerOf(a, p))
    && (forall p :: InstructionSending.LastRoundOf(a, p) <= InstructionSending.LastRoundOf(b, p))
  }

  ghost predicate SettlementGrows(a: Settling.Storage, b: Settling.Storage) {
    && (a.extensionId != 0 ==> b.extensionId == a.extensionId)
    && (forall p :: p in a.settlementOf ==> p in b.settlementOf && b.settlementOf[p] == a.settlementOf[p])
    && a.decisionSettled <= b.decisionSettled
  }

  ghost predicate InstructionsGrow(a: map<Word, Instruction>, b: map<Word, Instruction>) {
    forall id :: id in a ==> id in b && b[id] == a[id]
  }

  ghost predicate Extends(s: World, t: World) {
    && SenderGrows(s.sender, t.sender)
    && SettlementGrows(s.settlement, t.settlement)
    && InstructionsGrow(s.instructions, t.instructions)
    && s.ledger.transfers <= t.ledger.transfers
    && s.extensions <= t.extensions
    && s.verifiable <= t.verifiable
    && s.enclaves.Keys <= t.enclaves.Keys
    && s.signed <= t.signed
    && s.evaluations <= t.evaluations
    && s.enclaveLog <= t.enclaveLog
    && s.payouts <= t.payouts
    && s.executors <= t.executors
  }

  lemma ExtendsIsTransitive(s: World, t: World, u: World)
    requires Extends(s, t) && Extends(t, u)
    ensures Extends(s, u)
  {
  }

  /** An on-chain call touches nothing off-chain. */
  predicate SameOffChain(s: World, t: World) {
    t.enclaves == s.enclaves && t.signed == s.signed && t.enclaveLog == s.enclaveLog
  }

  predicate SameRegistries(s: World, t: World) {
    t.extensions == s.extensions && t.machines == s.machines && t.verifiable == s.verifiable
  }

  // ---- the settlement ledger

  /** Settled policies and consumed instructions correspond one to one. */
  ghost predicate OneToOne(st: Settling.Storage) {
    && (forall p :: p in st.settlementOf ==>
          st.settlementOf[p].settled && st.settlementOf[p].instructionId in st.decisionSettled)
    && (forall p, q :: (p in st.settlementOf && q in st.settlementOf
          && st.settlementOf[p].instructionId == st.settlementOf[q].instructionId) ==> p == q)
    && (forall i :: i in st.decisionSettled ==> exists p :: p in st.settlementOf && st.settlementOf[p].instructionId == i)
  }

  ghost predicate PaidFor(st: Settling.Storage, executors: set<Address>, c: PayoutCall) {
    && c.policyId in st.settlementOf
    && c.amount == st.settlementOf[c.policyId].amount > 0
    && c.payoutTo == st.settlementOf[c.policyId].payoutTo
    && c.executor in executors
  }

  /** Every payout call is for a settled policy with its recorded amount and recipient, no
      policy has two, and every policy that owes something has one. */
  ghost predicate PaidOnce(st: Settling.Storage, executors: set<Address>, payouts: seq<PayoutCall>) {
    && (forall k :: 0 <= k < |payouts| ==> PaidFor(st, executors, payouts[k]))
    && (forall j, k :: 0 <= j < k < |payouts| ==> payouts[j].policyId != payouts[k].policyId)
    && (forall p :: p in st.settlementOf && st.settlementOf[p].amount > 0 ==>
          exists k :: 0 <= k < |payouts| && payouts[k].policyId == p)
  }

  // ---- evaluations

  ghost predicate EvaluationOk(d: Deployment, s: World, e: Evaluation) {
    && e.proof in s.verifiable
    && RequestHash(d.keccak, e.proof.data.requestBody) == InstructionSending.TriggerOf(s.sender, e.policyId) != ZERO_WORD
    && Rainfall(e.proof.data.abiEncodedData).Some?
    && e.proof.data.votingRound <= InstructionSending.LastRoundOf(s.sender, e.policyId)
    && e.id in s.instructions
    && s.instructions[e.id] == Instruction(Enclave.Evaluate,
         DecisionCodec.Layout(e.policyId, Rainfall(e.proof.data.abiEncodedData).value, e.payoutTo))
  }

  /** Later evaluations have ids of their own, and of one policy also later rounds. */
  ghost predicate EvaluationsForward(evaluations: seq<Evaluation>) {
    forall j, k :: 0 <= j < k < |evaluations| ==>
      && evaluations[j].id != evaluations[k].id
      && (evaluations[j].policyId == evaluations[k].policyId ==>
            evaluations[j].proof.data.votingRound < evaluations[k].proof.data.votingRound)
  }

  ghost predicate AllEvaluationsOk(d: Deployment, s: World) {
    forall k :: 0 <= k < |s.evaluations| ==> EvaluationOk(d, s, s.evaluations[k])
  }

  /** Every EVALUATE instruction comes from an accepted evaluation. */
  ghost predicate InstructionsBacked(instructions: map<Word, Instruction>, evaluations: seq<Evaluation>) {
    && (forall id :: id in instructions && instructions[id].command == Enclave.Evaluate ==>
          exists k :: 0 <= k < |evaluations| && evaluations[k].id == id)
    && (forall id :: id in instructions ==>
          instructions[id].command == Enclave.Evaluate || instructions[id].command == Enclave.RegisterModel)
  }

  ghost predicate EvaluationsOk(d: Deployment, s: World) {
    AllEvaluationsOk(d, s) && EvaluationsForward(s.evaluations) && InstructionsBacked(s.instructions, s.evaluations)
  }

  // ---- the enclaves

  ghost predicate EnclavesOk(s: World) {
    forall tee :: tee in s.enclaves ==> s.enclaves[tee] == Held(s.enclaveLog, tee) && Enclave.AllValid(s.enclaves[tee])
  }

  /** Entry k is a scoring of an evaluation instruction with the model its enclave then held. */
  ghost predicate ScoringOk(s: World, k: nat)
    requires k < |s.enclaveLog| && s.enclaveLog[k].Scored?
  {
    var e := s.enclaveLog[k];
    && e.tee in s.enclaves
    && e.policyId in Held(s.enclaveLog[..k], e.tee)
    && Held(s.enclaveLog[..k], e.tee)[e.policyId] == e.model
    && Scoring.Valid(e.model)
    && e.id in s.instructions
    && s.instructions[e.id].command == Enclave.Evaluate
    && DecisionCodec.Decode(s.instructions[e.id].message).Ok?
    && DecisionCodec.Decode(s.instructions[e.id].message).value.policyId == e.policyId
  }

  ghost predicate LogOk(s: World) {
    forall k :: 0 <= k < |s.enclaveLog| && s.enclaveLog[k].Scored? ==> ScoringOk(s, k)
  }

  /** Entry k is the effect of a REGISTER_MODEL instruction with a valid model. */
  ghost predicate LoadOk(s: World, k: nat)
    requires k < |s.enclaveLog| && s.enclaveLog[k].Loaded?
  {
    var e := s.enclaveLog[k];
    && e.id in s.instructions && s.instructions[e.id].command == Enclave.RegisterModel
    && Scoring.Valid(e.model)
  }

  ghost predicate LoadsOk(s: World) {
    forall k :: 0 <= k < |s.enclaveLog| && s.enclaveLog[k].Loaded? ==> LoadOk(s, k)
  }

  /** The decision that a scoring leads to. */
  function DecisionBytes(e: EnclaveEvent, request: DecisionCodec.Tuple): Bytes
    requires e.Scored? && Scoring.Valid(e.model)
  {
    DecisionCodec.Layout(e.policyId, Scoring.Payout(e.model, request.value), request.payoutTo)
  }

  /** A signed result is the answer to scoring k. */
  ghost predicate AnswersScoring(s: World, x: Signed, k: nat)
    requires k < |s.enclaveLog| && s.enclaveLog[k].Scored? && ScoringOk(s, k)
  {
    var e := s.enclaveLog[k];
    && e.tee == x.tee && e.id == x.result.id && e.tag == x.result.tag
    && x.result.data == DecisionBytes(e, DecisionCodec.Decode(s.instructions[e.id].message).value)
  }

  /** The command is not signed, and need not be: only a scoring signs 96 bytes with status 1. */
  ghost predicate SignedOk(s: World, x: Signed) {
    && x.tee in s.enclaves
    && (x.result.status == 1 && |x.result.data| == DecisionCodec.TUPLE_SIZE ==>
          exists k :: 0 <= k < |s.enclaveLog| && s.enclaveLog[k].Scored? && ScoringOk(s, k) && AnswersScoring(s, x, k))
  }

  ghost predicate AllSignedOk(s: World) {
    forall x :: x in s.signed ==> SignedOk(s, x)
  }

  // ---- the registries

  /** Both contracts cache the one extension id that resolves to the sender. */
  predicate ScansOk(d: Deployment, s: World) {
    && (s.sender.extensionId != 0 ==> FindExtension(s.extensions, d.sender) == Some(s.sender.extensionId))
    && (s.settlement.extensionId != 0 ==> FindExtension(s.extensions, d.sender) == Some(s.settlement.extensionId))
  }

  // ---- chain of custody

  /** Evaluation e and scoring k together account for the record of policy p. */
  ghost predicate CustodyBy(d: Deployment, s: World, p: Word, e: nat, k: nat)
    requires p in s.settlement.settlementOf
  {
    && e < |s.evaluations| && k < |s.enclaveLog| && s.enclaveLog[k].Scored? && ScoringOk(s, k)
    && EvaluationOk(d, s, s.evaluations[e])
    && var record, evaluation, scoring := s.settlement.settlementOf[p], s.evaluations[e], s.enclaveLog[k];
       && evaluation.id == scoring.id == record.instructionId
       && evaluation.policyId == scoring.policyId == p
       && record.amount == Scoring.Payout(scoring.model, Rainfall(evaluation.proof.data.abiEncodedData).value)
       && record.payoutTo == (if record.amount > 0 then evaluation.payoutTo else ZERO_ADDRESS)
  }

  ghost predicate Custody(d: Deployment, s: World, p: Word)
    requires p in s.settlement.settlementOf
  {
    exists e, k :: CustodyBy(d, s, p, e, k)
  }

  ghost predicate AllInCustody(d: Deployment, s: World) {
    forall p :: p in s.settlement.settlementOf ==> Custody(d, s, p)
  }

  // ---- the money

  /** Payout calls that went through pools, and payout transfers out of pools bound here. */
  function PoolPayouts(d: Deployment, payouts: seq<PayoutCall>): seq<PayoutCall> {
    if payouts == [] then []
    else
      var last := payouts[|payouts| - 1];
      PoolPayouts(d, payouts[..|payouts| - 1]) + if last.executor in d.pools then [last] else []
  }

  predicate BoundPool(d: Deployment, a: Address) {
    a in d.pools && d.pools[a].settlement == d.settlement
  }

  function PayoutTransfers(d: Deployment, transfers: seq<Transfer>): seq<PayoutCall> {
    if transfers == [] then []
    else
      var last := transfers[|transfers| - 1];
      PayoutTransfers(d, transfers[..|transfers| - 1])
        + if BoundPool(d, last.from) && last.kind.Payout? then [PayoutCall(last.from, last.kind.policyId, last.to, last.amount)]
          else []
  }

  /** The token accounts balance, pools only ever pay or return float, and the payouts they
      made are exactly, and in order, the payout calls of this settlement. */
  ghost predicate MoneyOk(d: Deployment, s: World) {
    && Balanced(d.initialBalances, s.ledger)
    && (forall k :: 0 <= k < |s.ledger.transfers| && s.ledger.transfers[k].from in d.pools ==>
          !s.ledger.transfers[k].kind.Plain?)
    && PayoutTransfers(d, s.ledger.transfers) == PoolPayouts(d, s.payouts)
  }

  /** Everything about settlement, sending and the enclaves; the money is kept apart. */
  ghost predicate Core(d: Deployment, s: World) {
    && OneToOne(s.settlement)
    && PaidOnce(s.settlement, s.executors, s.payouts)
    && (s.settlement.executor == ZERO_ADDRESS || s.settlement.executor in s.executors)
    && EvaluationsOk(d, s)
    && EnclavesOk(s)
    && LogOk(s)
    && LoadsOk(s)
    && AllSignedOk(s)
    && ScansOk(d, s)
    && AllInCustody(d, s)
    && MachinesAttested(d, s)
  }

  ghost predicate Inv(d: Deployment, s: World) {
    Core(d, s) && MoneyOk(d, s)
  }
}
