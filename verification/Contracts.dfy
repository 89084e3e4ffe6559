/** The three contracts on values: what each call checks, in order, and the storage it leaves. */

/** The Flare registries the contracts consult. */
module Registries {
  import opened Wrappers
  import opened Bytes

  const FIRST_PUBLIC_EXTENSION_ID: nat := 0x10000

  datatype TeeStatus = NoStatus | Initialized | Production | Suspended | Paused | Banned

  datatype Machine = Machine(extensionId: nat, status: TeeStatus)

  /** A machine the registry does not know reads as extension 0 without a status. */
  function MachineOf(machines: map<Address, Machine>, tee: Address): Machine {
    if tee in machines then machines[tee] else Machine(0, NoStatus)
  }

  /** The scan both contracts make over the public extension ids; `senders[k]` is the
      instructions sender of extension FIRST_PUBLIC_EXTENSION_ID + k. */
  function FindFrom(senders: seq<Address>, target: Address, k: nat): Option<nat>
    requires k <= |senders|
    decreases |senders| - k
  {
    if k == |senders| then None
    else if senders[k] == target then Some(FIRST_PUBLIC_EXTENSION_ID + k)
    else FindFrom(senders, target, k + 1)
  }

  function FindExtension(senders: seq<Address>, target: Address): Option<nat> {
    FindFrom(senders, target, 0)
  }

  lemma {:induction false} FoundIsFirst(senders: seq<Address>, target: Address, k: nat)
    requires k <= |senders|
    ensures match FindFrom(senders, target, k)
            case Some(id) => FIRST_PUBLIC_EXTENSION_ID + k <= id < FIRST_PUBLIC_EXTENSION_ID + |senders|
                             && senders[id - FIRST_PUBLIC_EXTENSION_ID] == target
                             && target !in senders[k..id - FIRST_PUBLIC_EXTENSION_ID]
            case None => target !in senders[k..]
    decreases |senders| - k
  {
    if k < |senders| {
      if senders[k] != target {
        FoundIsFirst(senders, target, k + 1);
      }
    }
  }

  /** The registry only grows, so whoever scans later finds the same id: the two contracts,
      resolving one sender at different times, cache the same extension. */
  lemma {:induction false} LaterScanAgrees(senders: seq<Address>, later: seq<Address>, target: Address, k: nat)
    requires senders <= later && k <= |senders|
    requires FindFrom(senders, target, k).Some?
    ensures FindFrom(later, target, k) == FindFrom(senders, target, k)
    decreases |senders| - k
  {
    if senders[k] != target {
      LaterScanAgrees(senders, later, target, k + 1);
    }
  }

  /** The scan as the contracts run it. */
  method ScanExtensions(senders: seq<Address>, target: Address) returns (found: Option<nat>)
    ensures found == FindExtension(senders, target)
  {
    var i := FIRST_PUBLIC_EXTENSION_ID;
    var next := FIRST_PUBLIC_EXTENSION_ID + |senders|;
    while i < next
      invariant FIRST_PUBLIC_EXTENSION_ID <= i <= next
      invariant FindExtension(senders, target) == FindFrom(senders, target, i - FIRST_PUBLIC_EXTENSION_ID)
    {
      if senders[i - FIRST_PUBLIC_EXTENSION_ID] == target {
        return Some(i);
      }
      i := i + 1;
    }
    return None;
  }
}

module InstructionSending {
  import opened Wrappers
  import opened Bytes
  import opened Requests
  import DecisionCodec
  import Registries
  import Signing

  datatype Storage = Storage(extensionId: nat, triggers: map<Word, Word>, lastRound: map<Word, nat>)

  datatype Error =
    | NotOwner
    | PolicyIdZero
    | RequestHashZero
    | TriggerAlreadyRegistered
    | TriggerNotRegistered
    | NotThisPolicysTrigger
    | InvalidAttestation
    | StaleRound
    | MalformedReading
    | ExtensionIdNotSet
    | ExtensionIdAlreadySet
    | ExtensionIdNotFound
    | RegistryRefused

  function TriggerOf(st: Storage, policyId: Word): Word {
    if policyId in st.triggers then st.triggers[policyId] else ZERO_WORD
  }

  function LastRoundOf(st: Storage, policyId: Word): nat {
    if policyId in st.lastRound then st.lastRound[policyId] else 0
  }

  function SetExtensionId(st: Storage, senders: seq<Address>, self: Address): Result<Storage, Error> {
    if st.extensionId != 0 then Err(ExtensionIdAlreadySet)
    else
      match Registries.FindExtension(senders, self)
      case None => Err(ExtensionIdNotFound)
      case Some(id) => Ok(st.(extensionId := id))
  }

  function RegisterPolicyTrigger(st: Storage, byOwner: bool, policyId: Word, requestHash: Word): Result<Storage, Error> {
    if !byOwner then Err(NotOwner)
    else if policyId == ZERO_WORD then Err(PolicyIdZero)
    else if requestHash == ZERO_WORD then Err(RequestHashZero)
    else if TriggerOf(st, policyId) != ZERO_WORD then Err(TriggerAlreadyRegistered)
    else Ok(st.(triggers := st.triggers[policyId := requestHash]))
  }

  /** An accepted evaluation: the new storage and the message that is forwarded. `verified` is
      FdcVerification's answer, `accepted` whether the registry takes the instruction. */
  function Evaluate(
    st: Storage, keccak: Signing.Hash, verified: bool, accepted: bool,
    policyId: Word, payoutTo: Address, proof: Proof): Result<(Storage, Bytes), Error>
  {
    var expected := TriggerOf(st, policyId);
    if expected == ZERO_WORD then Err(TriggerNotRegistered)
    else if RequestHash(keccak, proof.data.requestBody) != expected then Err(NotThisPolicysTrigger)
    else if !verified then Err(InvalidAttestation)
    else if proof.data.votingRound <= LastRoundOf(st, policyId) then Err(StaleRound)
    else
      match Rainfall(proof.data.abiEncodedData)
      case None => Err(MalformedReading)
      case Some(rainfall) =>
        if st.extensionId == 0 then Err(ExtensionIdNotSet)
        else if !accepted then Err(RegistryRefused)
        else Ok((st.(lastRound := st.lastRound[policyId := proof.data.votingRound]),
                 DecisionCodec.Layout(policyId, rainfall, payoutTo)))
  }

  function RegisterModel(st: Storage, accepted: bool): Result<Storage, Error> {
    if st.extensionId == 0 then Err(ExtensionIdNotSet)
    else if !accepted then Err(RegistryRefused)
    else Ok(st)
  }

  // ---- what the calls do

  /** The id is cached once, and is that of the first extension registered for this contract. */
  lemma SetExtensionIdIff(st: Storage, senders: seq<Address>, self: Address)
    ensures var r := SetExtensionId(st, senders, self);
            && (r.Ok? <==> st.extensionId == 0 && self in senders)
            && (r.Ok? ==>
                  && r.value.triggers == st.triggers && r.value.lastRound == st.lastRound
                  && var k := r.value.extensionId - Registries.FIRST_PUBLIC_EXTENSION_ID;
                     0 <= k < |senders| && senders[k] == self && self !in senders[..k])
            && (r == Err(ExtensionIdAlreadySet) <==> st.extensionId != 0)
  {
    Registries.FoundIsFirst(senders, self, 0);
    assert senders[0..] == senders;
  }

  /** Binding takes exactly the owner's first non-zero hash for a non-zero policy, and afterwards the
      policy is bound to that hash and everything else is as before. */
  lemma BindingIff(st: Storage, byOwner: bool, p: Word, h: Word)
    ensures var r := RegisterPolicyTrigger(st, byOwner, p, h);
            && (r.Ok? <==> byOwner && p != ZERO_WORD && h != ZERO_WORD && TriggerOf(st, p) == ZERO_WORD)
            && (r.Ok? ==>
                  && r.value.extensionId == st.extensionId && r.value.lastRound == st.lastRound
                  && forall q :: TriggerOf(r.value, q) == if q == p then h else TriggerOf(st, q))
  {
  }

  /** An evaluation is accepted exactly for a bound policy, with a verified proof of its request in a
      newer round, of a reading that decodes, once the extension is known and the registry takes the
      instruction. The round alone is advanced, of this policy alone. */
  lemma EvaluationAcceptedIff(
    st: Storage, keccak: Signing.Hash, verified: bool, accepted: bool, p: Word, payoutTo: Address, proof: Proof)
    ensures var r := Evaluate(st, keccak, verified, accepted, p, payoutTo, proof);
            && (r.Ok? <==>
                  && TriggerOf(st, p) != ZERO_WORD
                  && keccak(EncodedRequest(proof.data.requestBody)) == TriggerOf(st, p)
                  && verified && proof.data.votingRound > LastRoundOf(st, p)
                  && |proof.data.abiEncodedData| >= 96
                  && st.extensionId != 0 && accepted)
            && (r.Ok? ==>
                  && r.value.0.extensionId == st.extensionId && r.value.0.triggers == st.triggers
                  && forall q :: LastRoundOf(r.value.0, q) == if q == p then proof.data.votingRound else LastRoundOf(st, q))
  {
  }

  /** A refused call names its first unmet requirement. */
  lemma RefusalIsTheFirst(
    st: Storage, keccak: Signing.Hash, byOwner: bool, h: Word, verified: bool, accepted: bool, p: Word, payoutTo: Address, proof: Proof)
    ensures var r := RegisterPolicyTrigger(st, byOwner, p, h);
            && (r == Err(NotOwner) <==> !byOwner)
            && (r == Err(PolicyIdZero) <==> byOwner && p == ZERO_WORD)
            && (r == Err(RequestHashZero) <==> byOwner && p != ZERO_WORD && h == ZERO_WORD)
            && (r == Err(TriggerAlreadyRegistered) <==>
                  byOwner && p != ZERO_WORD && h != ZERO_WORD && TriggerOf(st, p) != ZERO_WORD)
    ensures var r := Evaluate(st, keccak, verified, accepted, p, payoutTo, proof);
            var bound := TriggerOf(st, p) != ZERO_WORD;
            var matches := bound && RequestHash(keccak, proof.data.requestBody) == TriggerOf(st, p);
            var newer := matches && verified && proof.data.votingRound > LastRoundOf(st, p);
            && (r == Err(TriggerNotRegistered) <==> !bound)
            && (r == Err(NotThisPolicysTrigger) <==> bound && !matches)
            && (r == Err(InvalidAttestation) <==> matches && !verified)
            && (r == Err(StaleRound) <==> matches && verified && !newer)
            && (r == Err(MalformedReading) <==> newer && |proof.data.abiEncodedData| < 96)
            && (r == Err(ExtensionIdNotSet) <==> newer && |proof.data.abiEncodedData| >= 96 && st.extensionId == 0)
            && (r == Err(RegistryRefused) <==>
                  newer && |proof.data.abiEncodedData| >= 96 && st.extensionId != 0 && !accepted)
    ensures var r := RegisterModel(st, accepted);
            && (r == Err(ExtensionIdNotSet) <==> st.extensionId == 0)
            && (r == Err(RegistryRefused) <==> st.extensionId != 0 && !accepted)
  {
    hide RequestHash;
  }

  /** What an accepted evaluation forwards decodes to the policy, the attested rainfall and the
      recipient of this very call. */
  lemma ForwardedReading(
    st: Storage, keccak: Signing.Hash, verified: bool, accepted: bool, p: Word, payoutTo: Address, proof: Proof,
    latitude: Word, longitude: Word, rainfall: nat)
    requires rainfall < UINT256_LIMIT && proof.data.abiEncodedData == Reading(latitude, longitude, rainfall)
    requires Evaluate(st, keccak, verified, accepted, p, payoutTo, proof).Ok?
    ensures DecisionCodec.Decode(Evaluate(st, keccak, verified, accepted, p, payoutTo, proof).value.1)
            == Ok(DecisionCodec.Tuple(p, rainfall, payoutTo))
  {
    hide Reading, RequestHash;
    RainfallOfReading(latitude, longitude, rainfall, []);
    assert proof.data.abiEncodedData + [] == proof.data.abiEncodedData;
    DecisionCodec.EncodedTupleReadsBackEverywhere(p, rainfall, payoutTo);
  }
}

module Settling {
  import opened Wrappers
  import opened Bytes
  import opened Registries
  import DecisionCodec
  import Signing

  datatype Settlement = Settlement(settled: bool, payoutTo: Address, amount: nat, instructionId: Word)

  datatype Storage = Storage(
    extensionId: nat, executor: Address, settlementOf: map<Word, Settlement>, decisionSettled: set<Word>)

  datatype Arguments = Arguments(id: Word, status: byte, tag: Bytes, data: Bytes, signature: Bytes)

  datatype Error =
    | NotOwner
    | ZeroAddress
    | ExtensionIdNotSet
    | ExtensionIdAlreadySet
    | ExtensionIdNotFound
    | DecisionFailed
    | MalformedDecision(length: nat)
    | MalformedSignature
    | NotOurEnclave(tee: Address, extensionId: nat)
    | EnclaveNotInProduction(tee: Address, status: TeeStatus)
    | DecisionAlreadySettled(id: Word)
    | UndecodableDecision
    | UnknownPolicy(policyId: Word)
    | PolicyAlreadySettled(policyId: Word)
    | NoPayoutExecutor
    | PayoutFailed

  /** What settle reads outside its own storage. */
  datatype Context = Context(
    keccak: Signing.Hash, recover: Signing.Recover, chainId: nat,
    machines: map<Address, Machine>, triggers: map<Word, Word>)

  function SignableOf(a: Arguments): Signing.Signable {
    Signing.Signable(a.id, a.status, a.tag, a.data)
  }

  function SetExtensionId(st: Storage, senders: seq<Address>, instructionSender: Address): Result<Storage, Error> {
    if st.extensionId != 0 then Err(ExtensionIdAlreadySet)
    else
      match FindExtension(senders, instructionSender)
      case None => Err(ExtensionIdNotFound)
      case Some(id) => Ok(st.(extensionId := id))
  }

  function SetPayoutExecutor(st: Storage, byOwner: bool, hasCode: bool, executor: Address): Result<Storage, Error> {
    if !byOwner then Err(NotOwner)
    else if !hasCode then Err(ZeroAddress)
    else Ok(st.(executor := executor))
  }

  predicate IsSettled(st: Storage, policyId: Word) {
    policyId in st.settlementOf && st.settlementOf[policyId].settled
  }

  /** Every check settle makes before it writes, in its order; the decision it is about to record. */
  function Check(st: Storage, c: Context, a: Arguments): Result<DecisionCodec.Tuple, Error> {
    if a.status != 1 then Err(DecisionFailed)
    else if |a.data| != DecisionCodec.TUPLE_SIZE then Err(MalformedDecision(|a.data|))
    else
      match Signing.RecoverTeeId(c.keccak, c.recover, c.chainId, SignableOf(a), a.signature)
      case Err(_) => Err(MalformedSignature)
      case Ok(tee) =>
        var machine := MachineOf(c.machines, tee);
        if st.extensionId == 0 then Err(ExtensionIdNotSet)
        else if machine.extensionId != st.extensionId then Err(NotOurEnclave(tee, machine.extensionId))
        else if machine.status != Production then Err(EnclaveNotInProduction(tee, machine.status))
        else if a.id in st.decisionSettled then Err(DecisionAlreadySettled(a.id))
        else
          match DecisionCodec.AbiDecode(a.data)
          case Err(_) => Err(UndecodableDecision)
          case Ok(decision) =>
            if decision.policyId !in c.triggers || c.triggers[decision.policyId] == ZERO_WORD
            then Err(UnknownPolicy(decision.policyId))
            else if IsSettled(st, decision.policyId) then Err(PolicyAlreadySettled(decision.policyId))
            else Ok(decision)
  }

  /** settle accepts exactly the encodings of a decision for an open, bound policy, on an instruction
      not yet consumed, with status 1 and a signature that recovers to a machine in production of
      this extension. */
  lemma CheckAcceptsIff(st: Storage, c: Context, a: Arguments, decision: DecisionCodec.Tuple)
    ensures Check(st, c, a) == Ok(decision) <==>
              && a.status == 1
              && decision.value < UINT256_LIMIT
              && a.data == DecisionCodec.Layout(decision.policyId, decision.value, decision.payoutTo)
              && st.extensionId != 0
              && (exists tee :: Signing.RecoverTeeId(c.keccak, c.recover, c.chainId, SignableOf(a), a.signature) == Ok(tee)
                    && MachineOf(c.machines, tee) == Machine(st.extensionId, Production))
              && a.id !in st.decisionSettled
              && decision.policyId in c.triggers && c.triggers[decision.policyId] != ZERO_WORD
              && !IsSettled(st, decision.policyId)
  {
    hide Signing.RecoverTeeId, DecisionCodec.Layout, DecisionCodec.AbiDecode;
    DecodesIff(a.data, decision);
    assert forall tee :: MachineOf(c.machines, tee) == Machine(st.extensionId, Production) <==>
             MachineOf(c.machines, tee).extensionId == st.extensionId && MachineOf(c.machines, tee).status == Production;
  }

  /** A refused settle names its first unmet requirement, with the facts about it. */
  lemma RefusalIsTheFirst(st: Storage, c: Context, a: Arguments)
    ensures var r := Check(st, c, a);
            var signed := a.status == 1 && |a.data| == 96;
            && (r == Err(DecisionFailed) <==> a.status != 1)
            && (r == Err(MalformedDecision(|a.data|)) <==> a.status == 1 && |a.data| != 96)
            && (r == Err(MalformedSignature) <==>
                  signed && Signing.RecoverTeeId(c.keccak, c.recover, c.chainId, SignableOf(a), a.signature).Err?)
            && forall tee :: signed && Signing.RecoverTeeId(c.keccak, c.recover, c.chainId, SignableOf(a), a.signature) == Ok(tee) ==>
                 var machine := MachineOf(c.machines, tee);
                 var attested := st.extensionId != 0 && machine == Machine(st.extensionId, Production);
                 var open := attested && a.id !in st.decisionSettled;
                 && (r == Err(ExtensionIdNotSet) <==> st.extensionId == 0)
                 && (r == Err(NotOurEnclave(tee, machine.extensionId)) <==>
                       st.extensionId != 0 && machine.extensionId != st.extensionId)
                 && (r == Err(EnclaveNotInProduction(tee, machine.status)) <==>
                       st.extensionId != 0 && machine.extensionId == st.extensionId && machine.status != Production)
                 && (r == Err(DecisionAlreadySettled(a.id)) <==> attested && a.id in st.decisionSettled)
                 && (r == Err(UndecodableDecision) <==> open && DecisionCodec.AbiDecode(a.data).Err?)
                 && (open && DecisionCodec.AbiDecode(a.data).Ok? ==>
                       var p := DecisionCodec.AbiDecode(a.data).value.policyId;
                       var bound := p in c.triggers && c.triggers[p] != ZERO_WORD;
                       && (r == Err(UnknownPolicy(p)) <==> !bound)
                       && (r == Err(PolicyAlreadySettled(p)) <==> bound && IsSettled(st, p)))
  {
    hide Signing.RecoverTeeId, DecisionCodec.AbiDecode, IsSettled;
  }

  /** The contract decodes 96 bytes to a tuple exactly when they are its encoding. */
  lemma DecodesIff(data: Bytes, decision: DecisionCodec.Tuple)
    ensures |data| == DecisionCodec.TUPLE_SIZE && DecisionCodec.AbiDecode(data) == Ok(decision) <==>
              decision.value < UINT256_LIMIT
              && data == DecisionCodec.Layout(decision.policyId, decision.value, decision.payoutTo)
  {
    if decision.value < UINT256_LIMIT {
      DecisionCodec.EncodedTupleReadsBackEverywhere(decision.policyId, decision.value, decision.payoutTo);
    }
    if |data| == DecisionCodec.TUPLE_SIZE {
      DecisionCodec.DecodersAgree(data);
    }
  }

  /** The id is cached once, and is that of the first extension registered for InstructionSender. */
  lemma SetExtensionIdIff(st: Storage, senders: seq<Address>, instructionSender: Address)
    ensures var r := SetExtensionId(st, senders, instructionSender);
            && (r.Ok? <==> st.extensionId == 0 && instructionSender in senders)
            && (r.Ok? ==>
                  && r.value == st.(extensionId := r.value.extensionId)
                  && var k := r.value.extensionId - FIRST_PUBLIC_EXTENSION_ID;
                     0 <= k < |senders| && senders[k] == instructionSender && instructionSender !in senders[..k])
            && (r == Err(ExtensionIdAlreadySet) <==> st.extensionId != 0)
  {
    FoundIsFirst(senders, instructionSender, 0);
    assert senders[0..] == senders;
  }

  /** Only the owner swaps executors, only for one with code, and nothing but the executor changes. */
  lemma SwapIff(st: Storage, byOwner: bool, hasCode: bool, executor: Address)
    ensures var r := SetPayoutExecutor(st, byOwner, hasCode, executor);
            && (r.Ok? <==> byOwner && hasCode)
            && (r.Ok? ==>
                  && r.value.executor == executor
                  && r.value.extensionId == st.extensionId
                  && r.value.settlementOf == st.settlementOf && r.value.decisionSettled == st.decisionSettled)
  {
  }

  /** What settle writes before it calls the executor. */
  function Record(st: Storage, id: Word, decision: DecisionCodec.Tuple): Storage {
    st.(decisionSettled := st.decisionSettled + {id},
        settlementOf := st.settlementOf[decision.policyId :=
          Settlement(true, if decision.value > 0 then decision.payoutTo else ZERO_ADDRESS, decision.value, id)])
  }
}

/** An EIP-20 token and the pools that pay in it. */
module Tokens {
  import opened Wrappers
  import opened Bytes

  datatype Kind = Payout(policyId: Word) | Withdrawal | Plain

  datatype Transfer = Transfer(from: Address, to: Address, amount: nat, kind: Kind)

  /** Balances and the history of transfers that produced them. */
  datatype Ledger = Ledger(balances: map<Address, nat>, transfers: seq<Transfer>)

  datatype Pool = Pool(settlement: Address, owner: Address)

  function BalanceOf(balances: map<Address, nat>, account: Address): nat {
    if account in balances then balances[account] else 0
  }

  /** EIP-20 transfer: all or nothing, also to oneself. */
  function Move(ledger: Ledger, t: Transfer): Option<Ledger> {
    if BalanceOf(ledger.balances, t.from) < t.amount then None
    else
      var debited := ledger.balances[t.from := BalanceOf(ledger.balances, t.from) - t.amount];
      Some(Ledger(debited[t.to := BalanceOf(debited, t.to) + t.amount], ledger.transfers + [t]))
  }

  datatype PoolError =
    | NotSettlement
    | NotOwner
    | ZeroAddress
    | ZeroAmount
    | InsufficientLiquidity(requested: nat, available: nat)
    | TransferFailed

  /** FxrpPayoutExecutor.executePayout at `self`. */
  function ExecutePayout(ledger: Ledger, pool: Pool, self: Address, caller: Address, policyId: Word, to: Address, amount: nat)
    : Result<Ledger, PoolError>
  {
    if caller != pool.settlement then Err(NotSettlement)
    else if to == ZERO_ADDRESS then Err(ZeroAddress)
    else if amount == 0 then Err(ZeroAmount)
    else if amount > BalanceOf(ledger.balances, self) then
      Err(InsufficientLiquidity(amount, BalanceOf(ledger.balances, self)))
    else Sent(Move(ledger, Transfer(self, to, amount, Payout(policyId))))
  }

  /** FxrpPayoutExecutor.withdraw at `self`. */
  function Withdraw(ledger: Ledger, pool: Pool, self: Address, caller: Address, to: Address, amount: nat)
    : Result<Ledger, PoolError>
  {
    if caller != pool.owner then Err(NotOwner)
    else if to == ZERO_ADDRESS then Err(ZeroAddress)
    else if amount == 0 then Err(ZeroAmount)
    else Sent(Move(ledger, Transfer(self, to, amount, Withdrawal)))
  }

  function Sent(moved: Option<Ledger>): Result<Ledger, PoolError> {
    match moved
    case None => Err(TransferFailed)
    case Some(ledger) => Ok(ledger)
  }

  /** What a pool call can come to: a payout never fails at the token, and each call either moves
      exactly the amount or names its first unmet requirement. */
  lemma PoolCallsMoveOrRefuse(ledger: Ledger, pool: Pool, self: Address, caller: Address, policyId: Word, to: Address, amount: nat)
    ensures var paid := ExecutePayout(ledger, pool, self, caller, policyId, to, amount);
            && paid != Err(TransferFailed)
            && (paid.Ok? <==> caller == pool.settlement && to != ZERO_ADDRESS && 0 < amount <= BalanceOf(ledger.balances, self))
            && (paid == Err(NotSettlement) <==> caller != pool.settlement)
            && (paid == Err(ZeroAddress) <==> caller == pool.settlement && to == ZERO_ADDRESS)
            && (paid == Err(ZeroAmount) <==> caller == pool.settlement && to != ZERO_ADDRESS && amount == 0)
            && (paid == Err(InsufficientLiquidity(amount, BalanceOf(ledger.balances, self))) <==>
                  caller == pool.settlement && to != ZERO_ADDRESS && amount > BalanceOf(ledger.balances, self))
            && (paid.Ok? ==> paid.value.transfers == ledger.transfers + [Transfer(self, to, amount, Payout(policyId))])
    ensures var taken := Withdraw(ledger, pool, self, caller, to, amount);
            && (taken.Ok? <==> caller == pool.owner && to != ZERO_ADDRESS && 0 < amount <= BalanceOf(ledger.balances, self))
            && (taken == Err(NotOwner) <==> caller != pool.owner)
            && (taken == Err(ZeroAddress) <==> caller == pool.owner && to == ZERO_ADDRESS)
            && (taken == Err(ZeroAmount) <==> caller == pool.owner && to != ZERO_ADDRESS && amount == 0)
            && (taken == Err(TransferFailed) <==>
                  caller == pool.owner && to != ZERO_ADDRESS && amount > BalanceOf(ledger.balances, self))
            && (taken.Ok? ==> taken.value.transfers == ledger.transfers + [Transfer(self, to, amount, Withdrawal)])
  {
  }

  // ---- accounting

  function Inflow(transfers: seq<Transfer>, account: Address): nat {
    if transfers == [] then 0
    else
      var last := transfers[|transfers| - 1];
      Inflow(transfers[..|transfers| - 1], account) + if last.to == account then last.amount else 0
  }

  function PaidOut(transfers: seq<Transfer>, account: Address): nat {
    if transfers == [] then 0
    else
      var last := transfers[|transfers| - 1];
      PaidOut(transfers[..|transfers| - 1], account)
        + if last.from == account && last.kind.Payout? then last.amount else 0
  }

  function Withdrawn(transfers: seq<Transfer>, account: Address): nat {
    if transfers == [] then 0
    else
      var last := transfers[|transfers| - 1];
      Withdrawn(transfers[..|transfers| - 1], account)
        + if last.from == account && last.kind.Withdrawal? then last.amount else 0
  }

  function SentPlainly(transfers: seq<Transfer>, account: Address): nat {
    if transfers == [] then 0
    else
      var last := transfers[|transfers| - 1];
      SentPlainly(transfers[..|transfers| - 1], account)
        + if last.from == account && last.kind.Plain? then last.amount else 0
  }

  /** Every balance is what it started with, plus what came in, minus the three ways out. */
  ghost predicate Balanced(initial: map<Address, nat>, ledger: Ledger) {
    forall account: Address :: Accounted(initial, ledger, account)
  }

  predicate Accounted(initial: map<Address, nat>, ledger: Ledger, account: Address) {
    BalanceOf(ledger.balances, account)
    == BalanceOf(initial, account) + Inflow(ledger.transfers, account)
       - PaidOut(ledger.transfers, account) - Withdrawn(ledger.transfers, account) - SentPlainly(ledger.transfers, account)
  }

  /** A transfer to oneself counts on both sides and changes nothing. */
  lemma MoveKeepsBalanced(initial: map<Address, nat>, ledger: Ledger, t: Transfer)
    requires Balanced(initial, ledger) && Move(ledger, t).Some?
    ensures Balanced(initial, Move(ledger, t).value)
  {
    var after := Move(ledger, t).value;
    forall account: Address ensures Accounted(initial, after, account) {
      assert Accounted(initial, ledger, account);
      assert after.transfers[..|after.transfers| - 1] == ledger.transfers;
    }
  }
}
