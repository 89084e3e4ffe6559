/** The whole system as one state: contract storage, the token, the Flare registries, the
    instructions in flight, the enclaves and what they signed. On-chain calls may nest: an
    unknown payout executor runs any finite tree of further calls before it returns. */
module World {
  import opened Wrappers
  import opened Bytes
  import opened Requests
  import opened Registries
  import opened Tokens
  import DecisionCodec
  import Enclave
  import InstructionSending
  import Scoring
  import Settling
  import Signing

  /** What never changes after deployment. `pools` are the FxrpPayoutExecutors that exist. */
  datatype Deployment = Deployment(
    keccak: Signing.Hash, recover: Signing.Recover, chainId: nat,
    sender: Address, senderOwner: Address,
    settlement: Address, settlementOwner: Address,
    pools: map<Address, Pool>, initialBalances: map<Address, nat>)

  datatype Instruction = Instruction(command: Enclave.Command, message: Bytes)

  /** A result the tee-node signed with a machine's identity key. */
  datatype Signed = Signed(tee: Address, result: Signing.Signable)

  /** An accepted evaluate call. */
  datatype Evaluation = Evaluation(id: Word, policyId: Word, payoutTo: Address, proof: Proof)

  /** What happened inside the enclaves, in order. */
  datatype EnclaveEvent =
    | Started(tee: Address)
    | Loaded(tee: Address, id: Word, policyId: Word, model: Scoring.Model)
    | Scored(tee: Address, id: Word, tag: Bytes, policyId: Word, model: Scoring.Model)

  /** A call of executePayout that has not been reverted. */
  datatype PayoutCall = PayoutCall(executor: Address, policyId: Word, payoutTo: Address, amount: nat)

  /** `evaluations`, `enclaveLog`, `payouts` and `executors` are history and influence nothing. */
  datatype World = World(
    sender: InstructionSending.Storage,
    settlement: Settling.Storage,
    ledger: Ledger,
    extensions: seq<Address>,
    machines: map<Address, Machine>,
    verifiable: set<Proof>,
    instructions: map<Word, Instruction>,
    enclaves: map<Address, Enclave.Memory>,
    signed: set<Signed>,
    evaluations: seq<Evaluation>,
    enclaveLog: seq<EnclaveEvent>,
    payouts: seq<PayoutCall>,
    executors: set<Address>)

  function Genesis(d: Deployment): World {
    World(InstructionSending.Storage(0, map[], map[]),
          Settling.Storage(0, ZERO_ADDRESS, map[], {}),
          Ledger(d.initialBalances, []), [], map[], {}, map[], map[], {}, [], [], [], {})
  }

  // ---- on-chain calls

  datatype Call =
    | RegisterPolicyTrigger(caller: Address, policyId: Word, requestHash: Word)
    | RegisterModel(ciphertext: Bytes, newId: Word, accepted: bool)
    | Evaluate(policyId: Word, payoutTo: Address, proof: Proof, newId: Word, accepted: bool)
    | SenderSetExtensionId
    | SettlementSetExtensionId
    | SetPayoutExecutor(caller: Address, executor: Address, hasCode: bool)
    /** `inner` is what an unknown executor calls before it returns (`returns`) or reverts. */
    | Settle(arguments: Settling.Arguments, inner: seq<Call>, returns_: bool)
    | ExecutePayout(caller: Address, pool: Address, policyId: Word, to: Address, amount: nat)
    | Withdraw(caller: Address, pool: Address, to: Address, amount: nat)
    | TransferTokens(caller: Address, to: Address, amount: nat)
    /** The registries change and FdcVerification comes to accept a proof: also by calls, which an
        executor may make or bring about. */
    | RegisterExtension(instructionsSender: Address)
    | UpdateMachine(tee: Address, machine: Machine)
    | Attest(proof: Proof)

  /** The system's own contracts never act as somebody else's caller. */
  predicate CanCall(d: Deployment, caller: Address) {
    caller != d.sender && caller != d.settlement && caller !in d.pools
  }

  function ContextOf(d: Deployment, s: World): Settling.Context {
    Settling.Context(d.keccak, d.recover, d.chainId, s.machines, s.sender.triggers)
  }

  /** The registry gives every instruction an id it has not used. */
  predicate Accepts(s: World, newId: Word, accepted: bool) {
    accepted && newId !in s.instructions
  }

  /** One call: the world after it and whether it succeeded. A call that reverts changes nothing. */
  function Exec(d: Deployment, s: World, c: Call): (World, bool)
    decreases c, 1
  {
    match c
    case RegisterPolicyTrigger(caller, policyId, requestHash) =>
      (match InstructionSending.RegisterPolicyTrigger(s.sender, CanCall(d, caller) && caller == d.senderOwner, policyId, requestHash)
       case Err(_) => (s, false)
       case Ok(st) => (s.(sender := st), true))
    case RegisterModel(ciphertext, newId, accepted) =>
      (match InstructionSending.RegisterModel(s.sender, Accepts(s, newId, accepted))
       case Err(_) => (s, false)
       case Ok(st) =>
         (s.(sender := st, instructions := s.instructions[newId := Instruction(Enclave.RegisterModel, ciphertext)]), true))
    case Evaluate(policyId, payoutTo, proof, newId, accepted) =>
      (match InstructionSending.Evaluate(s.sender, d.keccak, proof in s.verifiable, Accepts(s, newId, accepted),
                                         policyId, payoutTo, proof)
       case Err(_) => (s, false)
       case Ok((st, message)) =>
         (s.(sender := st,
             instructions := s.instructions[newId := Instruction(Enclave.Evaluate, message)],
             evaluations := s.evaluations + [Evaluation(newId, policyId, payoutTo, proof)]), true))
    case SenderSetExtensionId =>
      (match InstructionSending.SetExtensionId(s.sender, s.extensions, d.sender)
       case Err(_) => (s, false)
       case Ok(st) => (s.(sender := st), true))
    case SettlementSetExtensionId =>
      (match Settling.SetExtensionId(s.settlement, s.extensions, d.sender)
       case Err(_) => (s, false)
       case Ok(st) => (s.(settlement := st), true))
    case SetPayoutExecutor(caller, executor, hasCode) =>
      (match Settling.SetPayoutExecutor(s.settlement, CanCall(d, caller) && caller == d.settlementOwner,
                                        hasCode && executor != ZERO_ADDRESS, executor)
       case Err(_) => (s, false)
       case Ok(st) => (s.(settlement := st, executors := s.executors + {executor}), true))
    case Settle(a, inner, returns_) => ExecSettle(d, s, a, inner, returns_)
    case ExecutePayout(caller, pool, policyId, to, amount) =>
      if !CanCall(d, caller) || pool !in d.pools then (s, false)
      else FromPool(s, Tokens.ExecutePayout(s.ledger, d.pools[pool], pool, caller, policyId, to, amount))
    case Withdraw(caller, pool, to, amount) =>
      if !CanCall(d, caller) || pool !in d.pools then (s, false)
      else FromPool(s, Tokens.Withdraw(s.ledger, d.pools[pool], pool, caller, to, amount))
    case TransferTokens(caller, to, amount) =>
      if !CanCall(d, caller) then (s, false)
      else WithLedger(s, Move(s.ledger, Transfer(caller, to, amount, Plain)))
    case RegisterExtension(instructionsSender) => (s.(extensions := s.extensions + [instructionsSender]), true)
    case UpdateMachine(tee, machine) => (s.(machines := s.machines[tee := machine]), true)
    case Attest(proof) => (s.(verifiable := s.verifiable + {proof}), true)
  }

  function FromPool(s: World, ledger: Result<Ledger, PoolError>): (World, bool) {
    match ledger
    case Err(_) => (s, false)
    case Ok(l) => (s.(ledger := l), true)
  }

  function WithLedger(s: World, ledger: Option<Ledger>): (World, bool) {
    match ledger
    case None => (s, false)
    case Some(l) => (s.(ledger := l), true)
  }

  function Recorded(s: World, id: Word, decision: DecisionCodec.Tuple): World {
    s.(settlement := Settling.Record(s.settlement, id, decision))
  }

  /** The record is written and the payout call is on the stack. */
  function Calling(s: World, id: Word, decision: DecisionCodec.Tuple): World {
    Recorded(s, id, decision).(payouts := s.payouts
      + [PayoutCall(s.settlement.executor, decision.policyId, decision.payoutTo, decision.value)])
  }

  function ExecSettle(d: Deployment, s: World, a: Settling.Arguments, inner: seq<Call>, returns_: bool): (World, bool)
    decreases inner, 2
  {
    match Settling.Check(s.settlement, ContextOf(d, s), a)
    case Err(_) => (s, false)
    case Ok(decision) =>
      if decision.value == 0 then (Recorded(s, a.id, decision), true)
      else if s.settlement.executor == ZERO_ADDRESS then (s, false)
      else
        var calling := Calling(s, a.id, decision);
        if s.settlement.executor in d.pools then
          var pool := d.pools[s.settlement.executor];
          match Tokens.ExecutePayout(s.ledger, pool, s.settlement.executor, d.settlement,
                                     decision.policyId, decision.payoutTo, decision.value)
          case Err(_) => (s, false)
          case Ok(l) => (calling.(ledger := l), true)
        else if returns_ then (ExecAll(d, calling, inner), true)
        else (s, false)
  }

  /** A caller may ignore a reverted inner call and go on. */
  function ExecAll(d: Deployment, s: World, calls: seq<Call>): World
    decreases calls, 1
  {
    if calls == [] then s else ExecAll(d, Exec(d, s, calls[0]).0, calls[1..])
  }

  // ---- the enclaves

  /** The models an enclave holds according to its history: what was loaded since it last started. */
  function Held(log: seq<EnclaveEvent>, tee: Address): Enclave.Memory {
    if log == [] then map[]
    else
      var before := Held(log[..|log| - 1], tee);
      match log[|log| - 1]
      case Started(t) => if t == tee then map[] else before
      case Loaded(t, _, policyId, model) => if t == tee then before[policyId := model] else before
      case Scored(_, _, _, _, _) => before
  }

  function ActionFor(id: Word, tag: Bytes, instruction: Instruction): Enclave.Action {
    Enclave.Action(id, tag, true, instruction.command, instruction.message)
  }

  function SignableOf(r: Enclave.ActionResult): Signing.Signable {
    Signing.Signable(r.id, r.status, r.tag, r.data)
  }

  /** What processing an instruction adds to the history. */
  function EventsOf(tee: Address, action: Enclave.Action, memory: Enclave.Memory, secret: Enclave.Opened): seq<EnclaveEvent> {
    match action.command
    case RegisterModel =>
      (match Enclave.Registration(secret)
       case Ok((policyId, model)) => if action.message == [] then [] else [Loaded(tee, action.id, policyId, model)]
       case Err(_) => [])
    case Evaluate =>
      if Enclave.Decide(memory, action.message).Ok? then
        var policyId := DecisionCodec.Decode(action.message).value.policyId;
        [Scored(tee, action.id, action.tag, policyId, memory[policyId])]
      else []
    case Unsupported(_) => []
  }

  /** An enclave processes an instruction, any instruction and any number of times, and the
      tee-node signs the result. */
  function Process(s: World, tee: Address, id: Word, tag: Bytes, secret: Enclave.Opened): World {
    if tee !in s.enclaves || id !in s.instructions then s
    else
      var action := ActionFor(id, tag, s.instructions[id]);
      var (after, reply) := Enclave.Process(s.enclaves[tee], action, secret);
      s.(enclaves := s.enclaves[tee := after],
         signed := s.signed + (if reply.Answer? then {Signed(tee, SignableOf(reply.result))} else {}),
         enclaveLog := s.enclaveLog + EventsOf(tee, action, s.enclaves[tee], secret))
  }

  // ---- steps and runs

  datatype Step =
    | Transaction(call: Call)
    | ProcessInstruction(tee: Address, id: Word, tag: Bytes, secret: Enclave.Opened)
    /** A new enclave of this extension, or one that restarts and forgets its models. */
    | StartEnclave(tee: Address)

  function Next(d: Deployment, s: World, step: Step): World {
    match step
    case Transaction(call) => Exec(d, s, call).0
    case ProcessInstruction(tee, id, tag, secret) => Process(s, tee, id, tag, secret)
    case StartEnclave(tee) =>
      s.(enclaves := s.enclaves[tee := map[]], enclaveLog := s.enclaveLog + [Started(tee)])
  }

  function Run(d: Deployment, s: World, steps: seq<Step>): World
    decreases steps
  {
    if steps == [] then s else Run(d, Next(d, s, steps[0]), steps[1..])
  }

  // ---- the assumptions about what is outside

  /** The registry attests machines: whatever is in production for an extension that takes its
      instructions from this sender is an enclave running this code. */
  ghost predicate MachinesAttested(d: Deployment, s: World) {
    forall tee :: tee in s.machines && RunsOurs(d, s, tee) ==> tee in s.enclaves
  }

  predicate RunsOurs(d: Deployment, s: World, tee: Address)
    requires tee in s.machines
  {
    && s.machines[tee].status == Production
    && FindExtension(s.extensions, d.sender) == Some(s.machines[tee].extensionId)
  }

  /** Signatures of enclaves are unforgeable and the hash function does not collide on what was
      signed: a signature that recovers to an enclave is over a result that enclave signed. */
  ghost predicate Unforged(d: Deployment, enclaves: set<Address>, signed: set<Signed>, a: Settling.Arguments) {
    var presented := Settling.SignableOf(a);
    var tee := Signing.RecoverTeeId(d.keccak, d.recover, d.chainId, presented, a.signature);
    tee.Ok? && tee.value in enclaves ==>
      exists x :: x in signed && x.tee == tee.value
        && Signing.Digest(d.keccak, d.chainId, x.result) == Signing.Digest(d.keccak, d.chainId, presented)
        && !Signing.SigningCollision(d.keccak, d.chainId, x.result, d.chainId, presented)
  }

  /** This settle calls an unknown executor, which returns. */
  predicate CallsOut(d: Deployment, s: World, a: Settling.Arguments, returns_: bool) {
    && returns_ && Settling.Check(s.settlement, ContextOf(d, s), a).Ok?
    && Settling.Check(s.settlement, ContextOf(d, s), a).value.value > 0
    && s.settlement.executor != ZERO_ADDRESS && s.settlement.executor !in d.pools
  }

  /** Every settle in a call tree presents a signature that could exist, and every change of the
      registries, wherever it is nested, leaves the machines attested. */
  ghost predicate AllowedCall(d: Deployment, s: World, c: Call)
    decreases c, 1
  {
    && (c.RegisterExtension? || c.UpdateMachine? ==> MachinesAttested(d, Exec(d, s, c).0))
    && (c.Settle? ==>
          && Unforged(d, s.enclaves.Keys, s.signed, c.arguments)
          && (CallsOut(d, s, c.arguments, c.returns_) ==>
                var decision := Settling.Check(s.settlement, ContextOf(d, s), c.arguments).value;
                AllowedCalls(d, Calling(s, c.arguments.id, decision), c.inner)))
  }

  ghost predicate AllowedCalls(d: Deployment, s: World, calls: seq<Call>)
    decreases calls, 0
  {
    calls != [] ==> AllowedCall(d, s, calls[0]) && AllowedCalls(d, Exec(d, s, calls[0]).0, calls[1..])
  }

  ghost predicate Feasible(d: Deployment, s: World, step: Step) {
    d.chainId < UINT256_LIMIT && (step.Transaction? ==> AllowedCall(d, s, step.call))
  }

  ghost predicate FeasibleRun(d: Deployment, s: World, steps: seq<Step>)
    decreases steps
  {
    steps != [] ==> Feasible(d, s, steps[0]) && FeasibleRun(d, Next(d, s, steps[0]), steps[1..])
  }
}
