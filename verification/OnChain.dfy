/** The contracts as objects whose calls update their storage in place, with external calls in
    the middle. Every method is tied to the value-level transition of the same name. */
module OnChain {
  import opened Wrappers
  import opened Bytes
  import opened Requests
  import opened Registries
  import opened World
  import opened Guarantees
  import opened Progress
  import DecisionCodec
  import Enclave
  import InstructionSending
  import Settling
  import Signing
  import Tokens

  lemma OnlyOwnersConfigure(a: InstructionSending.Storage, b: Settling.Storage, c: Call)
    ensures c.RegisterPolicyTrigger? ==>
              InstructionSending.RegisterPolicyTrigger(a, false, c.policyId, c.requestHash).Err?
    ensures c.SetPayoutExecutor? ==>
              Settling.SetPayoutExecutor(b, false, c.hasCode && c.executor != ZERO_ADDRESS, c.executor).Err?
  {
  }

  class InstructionSender {
    const self: Address
    const owner: Address
    var extensionId: nat
    var policyTriggerRequestHash: map<Word, Word>
    var lastAttestedVotingRound: map<Word, nat>

    constructor (self: Address, owner: Address)
      ensures this.self == self && this.owner == owner
      ensures Storage() == InstructionSending.Storage(0, map[], map[])
    {
      this.self, this.owner := self, owner;
      extensionId, policyTriggerRequestHash, lastAttestedVotingRound := 0, map[], map[];
    }

    function Storage(): InstructionSending.Storage
      reads this
    {
      InstructionSending.Storage(extensionId, policyTriggerRequestHash, lastAttestedVotingRound)
    }

    method SetExtensionId(senders: seq<Address>) returns (error: Option<InstructionSending.Error>)
      modifies this`extensionId
      ensures match InstructionSending.SetExtensionId(old(Storage()), senders, self)
              case Ok(st) => error.None? && Storage() == st
              case Err(e) => error == Some(e) && Storage() == old(Storage())
    {
      if extensionId != 0 {
        return Some(InstructionSending.ExtensionIdAlreadySet);
      }
      var found := ScanExtensions(senders, self);
      if found.None? {
        return Some(InstructionSending.ExtensionIdNotFound);
      }
      extensionId := found.value;
      return None;
    }

    method RegisterPolicyTrigger(caller: Address, policyId: Word, requestHash: Word)
      returns (error: Option<InstructionSending.Error>)
      modifies this`policyTriggerRequestHash
      ensures match InstructionSending.RegisterPolicyTrigger(old(Storage()), caller == owner, policyId, requestHash)
              case Ok(st) => error.None? && Storage() == st
              case Err(e) => error == Some(e) && Storage() == old(Storage())
    {
      if caller != owner {
        return Some(InstructionSending.NotOwner);
      }
      if policyId == ZERO_WORD {
        return Some(InstructionSending.PolicyIdZero);
      }
      if requestHash == ZERO_WORD {
        return Some(InstructionSending.RequestHashZero);
      }
      if policyId in policyTriggerRequestHash && policyTriggerRequestHash[policyId] != ZERO_WORD {
        return Some(InstructionSending.TriggerAlreadyRegistered);
      }
      policyTriggerRequestHash := policyTriggerRequestHash[policyId := requestHash];
      return None;
    }

    /** The round is written before the reading is decoded and the instruction is sent; when one
        of those reverts, the write is undone with the rest of the call. */
    method Evaluate(keccak: Signing.Hash, verified: bool, accepted: bool, policyId: Word, payoutTo: Address, proof: Proof)
      returns (message: Result<Bytes, InstructionSending.Error>)
      modifies this`lastAttestedVotingRound
      ensures match InstructionSending.Evaluate(old(Storage()), keccak, verified, accepted, policyId, payoutTo, proof)
              case Ok((st, m)) => message == Ok(m) && Storage() == st
              case Err(e) => message == Err(e) && Storage() == old(Storage())
    {
      var expected := InstructionSending.TriggerOf(Storage(), policyId);
      if expected == ZERO_WORD {
        return Err(InstructionSending.TriggerNotRegistered);
      }
      if RequestHash(keccak, proof.data.requestBody) != expected {
        return Err(InstructionSending.NotThisPolicysTrigger);
      }
      if !verified {
        return Err(InstructionSending.InvalidAttestation);
      }
      if proof.data.votingRound <= InstructionSending.LastRoundOf(Storage(), policyId) {
        return Err(InstructionSending.StaleRound);
      }
      var before := lastAttestedVotingRound;
      lastAttestedVotingRound := lastAttestedVotingRound[policyId := proof.data.votingRound];
      var rainfall := Rainfall(proof.data.abiEncodedData);
      if rainfall.None? {
        lastAttestedVotingRound := before;
        return Err(InstructionSending.MalformedReading);
      }
      if extensionId == 0 {
        lastAttestedVotingRound := before;
        return Err(InstructionSending.ExtensionIdNotSet);
      }
      if !accepted {
        lastAttestedVotingRound := before;
        return Err(InstructionSending.RegistryRefused);
      }
      return Ok(DecisionCodec.Layout(policyId, rainfall.value, payoutTo));
    }
  }

  /** An EIP-20 token. */
  class Token {
    var balances: map<Address, nat>
    ghost var transfers: seq<Tokens.Transfer>

    constructor (initial: map<Address, nat>)
      ensures Ledger() == Tokens.Ledger(initial, [])
    {
      balances, transfers := initial, [];
    }

    ghost function Ledger(): Tokens.Ledger
      reads this
    {
      Tokens.Ledger(balances, transfers)
    }

    method Move(from: Address, to: Address, amount: nat, ghost kind: Tokens.Kind) returns (ok: bool)
      modifies this
      ensures match Tokens.Move(old(Ledger()), Tokens.Transfer(from, to, amount, kind))
              case Some(l) => ok && Ledger() == l
              case None => !ok && Ledger() == old(Ledger())
    {
      if Tokens.BalanceOf(balances, from) < amount {
        return false;
      }
      balances := balances[from := Tokens.BalanceOf(balances, from) - amount];
      balances := balances[to := Tokens.BalanceOf(balances, to) + amount];
      transfers := transfers + [Tokens.Transfer(from, to, amount, kind)];
      return true;
    }
  }

  class FxrpPayoutExecutor {
    const self: Address
    const fxrp: Token
    const settlement: Address
    const owner: Address

    constructor (self: Address, fxrp: Token, settlement: Address, owner: Address)
      ensures this.self == self && this.fxrp == fxrp && this.settlement == settlement && this.owner == owner
    {
      this.self, this.fxrp, this.settlement, this.owner := self, fxrp, settlement, owner;
    }

    method ExecutePayout(caller: Address, policyId: Word, payoutTo: Address, amount: nat)
      returns (error: Option<Tokens.PoolError>)
      modifies fxrp
      ensures match Tokens.ExecutePayout(old(fxrp.Ledger()), Tokens.Pool(settlement, owner), self, caller, policyId, payoutTo, amount)
              case Ok(l) => error.None? && fxrp.Ledger() == l
              case Err(e) => error == Some(e) && fxrp.Ledger() == old(fxrp.Ledger())
    {
      if caller != settlement {
        return Some(Tokens.NotSettlement);
      }
      if payoutTo == ZERO_ADDRESS {
        return Some(Tokens.ZeroAddress);
      }
      if amount == 0 {
        return Some(Tokens.ZeroAmount);
      }
      var available := Tokens.BalanceOf(fxrp.balances, self);
      if amount > available {
        return Some(Tokens.InsufficientLiquidity(amount, available));
      }
      error := TransferFxrp(payoutTo, amount, Tokens.Payout(policyId));
    }

    method Withdraw(caller: Address, to: Address, amount: nat) returns (error: Option<Tokens.PoolError>)
      modifies fxrp
      ensures match Tokens.Withdraw(old(fxrp.Ledger()), Tokens.Pool(settlement, owner), self, caller, to, amount)
              case Ok(l) => error.None? && fxrp.Ledger() == l
              case Err(e) => error == Some(e) && fxrp.Ledger() == old(fxrp.Ledger())
    {
      if caller != owner {
        return Some(Tokens.NotOwner);
      }
      if to == ZERO_ADDRESS {
        return Some(Tokens.ZeroAddress);
      }
      if amount == 0 {
        return Some(Tokens.ZeroAmount);
      }
      error := TransferFxrp(to, amount, Tokens.Withdrawal);
    }

    /** _transfer: a token that refuses makes the call revert. */
    method TransferFxrp(to: Address, amount: nat, ghost kind: Tokens.Kind) returns (error: Option<Tokens.PoolError>)
      modifies fxrp
      ensures match Tokens.Sent(Tokens.Move(old(fxrp.Ledger()), Tokens.Transfer(self, to, amount, kind)))
              case Ok(l) => error.None? && fxrp.Ledger() == l
              case Err(e) => error == Some(e) && fxrp.Ledger() == old(fxrp.Ledger())
    {
      var ok := fxrp.Move(self, to, amount, kind);
      error := if ok then None else Some(Tokens.TransferFailed);
    }
  }

  class PolicySettlement {
    const owner: Address
    const instructionSender: Address
    var extensionId: nat
    var payoutExecutor: Address
    var settlementOf: map<Word, Settling.Settlement>
    var decisionSettled: set<Word>

    constructor (owner: Address, instructionSender: Address)
      ensures this.owner == owner && this.instructionSender == instructionSender
      ensures Storage() == Settling.Storage(0, ZERO_ADDRESS, map[], {})
    {
      this.owner, this.instructionSender := owner, instructionSender;
      extensionId, payoutExecutor, settlementOf, decisionSettled := 0, ZERO_ADDRESS, map[], {};
    }

    function Storage(): Settling.Storage
      reads this
    {
      Settling.Storage(extensionId, payoutExecutor, settlementOf, decisionSettled)
    }

    method SetExtensionId(senders: seq<Address>) returns (error: Option<Settling.Error>)
      modifies this`extensionId
      ensures match Settling.SetExtensionId(old(Storage()), senders, instructionSender)
              case Ok(st) => error.None? && Storage() == st
              case Err(e) => error == Some(e) && Storage() == old(Storage())
    {
      if extensionId != 0 {
        return Some(Settling.ExtensionIdAlreadySet);
      }
      var found := ScanExtensions(senders, instructionSender);
      if found.None? {
        return Some(Settling.ExtensionIdNotFound);
      }
      extensionId := found.value;
      return None;
    }

    method SetPayoutExecutor(caller: Address, executor: Address, hasCode: bool) returns (error: Option<Settling.Error>)
      modifies this`payoutExecutor
      ensures match Settling.SetPayoutExecutor(old(Storage()), caller == owner, hasCode, executor)
              case Ok(st) => error.None? && Storage() == st
              case Err(e) => error == Some(e) && Storage() == old(Storage())
    {
      if caller != owner {
        return Some(Settling.NotOwner);
      }
      if !hasCode {
        return Some(Settling.ZeroAddress);
      }
      payoutExecutor := executor;
      return None;
    }

    /** settle up to its first write: the requirements in the order they are made. */
    method CheckDecision(c: Settling.Context, a: Settling.Arguments) returns (r: Result<DecisionCodec.Tuple, Settling.Error>)
      ensures r == Settling.Check(Storage(), c, a)
    {
      if a.status != 1 {
        return Err(Settling.DecisionFailed);
      }
      if |a.data| != 96 {
        return Err(Settling.MalformedDecision(|a.data|));
      }
      var tee := Signing.RecoverTeeId(c.keccak, c.recover, c.chainId, Settling.SignableOf(a), a.signature);
      if tee.Err? {
        return Err(Settling.MalformedSignature);
      }
      if extensionId == 0 {
        return Err(Settling.ExtensionIdNotSet);
      }
      var machine := MachineOf(c.machines, tee.value);
      if machine.extensionId != extensionId {
        return Err(Settling.NotOurEnclave(tee.value, machine.extensionId));
      }
      if machine.status != Production {
        return Err(Settling.EnclaveNotInProduction(tee.value, machine.status));
      }
      if a.id in decisionSettled {
        return Err(Settling.DecisionAlreadySettled(a.id));
      }
      var decision := DecisionCodec.AbiDecode(a.data);
      if decision.Err? {
        return Err(Settling.UndecodableDecision);
      }
      var policyId := decision.value.policyId;
      if policyId !in c.triggers || c.triggers[policyId] == ZERO_WORD {
        return Err(Settling.UnknownPolicy(policyId));
      }
      if policyId in settlementOf && settlementOf[policyId].settled {
        return Err(Settling.PolicyAlreadySettled(policyId));
      }
      return Ok(decision.value);
    }

    /** settle. State is written before the executor is called; if the call fails the whole frame
        is undone, and while it runs the executor may call anything, settle included. */
    method Settle(chain: Chain, a: Settling.Arguments, inner: seq<Call>, returns_: bool) returns (ok: bool)
      requires chain.Valid() && chain.settlement == this
      modifies chain, chain.sender, this, chain.token
      ensures chain.Valid()
      ensures (chain.State(), ok) == ExecSettle(chain.d, old(chain.State()), a, inner, returns_)
      decreases inner, 2
    {
      hide Settling.Check, Tokens.ExecutePayout, ExecAll;
      ghost var start := chain.State();
      var checked := CheckDecision(chain.Context(), a);
      if checked.Err? {
        return false;
      }
      var policyId, amount, payoutTo := checked.value.policyId, checked.value.value, checked.value.payoutTo;
      var settledBefore, recordsBefore := decisionSettled, settlementOf;
      decisionSettled := decisionSettled + {a.id};
      settlementOf := settlementOf[policyId :=
        Settling.Settlement(true, if amount > 0 then payoutTo else ZERO_ADDRESS, amount, a.id)];
      assert chain.State() == Recorded(start, a.id, checked.value);
      if amount == 0 {
        return true;
      }
      var executor := payoutExecutor;
      ok := false;
      if executor != ZERO_ADDRESS {
        ghost var payoutsBefore := chain.payouts;
        chain.payouts := chain.payouts + [PayoutCall(executor, policyId, payoutTo, amount)];
        assert chain.State() == Calling(start, a.id, checked.value);
        if executor in chain.pools {
          var error := chain.pools[executor].ExecutePayout(chain.d.settlement, policyId, payoutTo, amount);
          ok := error.None?;
        } else if returns_ {
          chain.ExecuteAll(inner);
          ok := true;
        }
        if !ok {
          chain.payouts := payoutsBefore;
        }
      }
      if !ok {
        decisionSettled, settlementOf := settledBefore, recordsBefore;
        assert chain.State() == start;
      }
    }
  }

  /** Everything the contracts live among: each other, the token, the registries, FDC, and the
      enclaves, which no on-chain call touches. */
  class Chain {
    const d: Deployment
    const sender: InstructionSender
    const settlement: PolicySettlement
    const token: Token
    const pools: map<Address, FxrpPayoutExecutor>
    var extensions: seq<Address>
    var machines: map<Address, Machine>
    var verifiable: set<Proof>
    var instructions: map<Word, Instruction>
    ghost var enclaves: map<Address, Enclave.Memory>
    ghost var signed: set<Signed>
    ghost var evaluations: seq<Evaluation>
    ghost var enclaveLog: seq<EnclaveEvent>
    ghost var payouts: seq<PayoutCall>
    ghost var executors: set<Address>

    /** The deployed system before anything has happened. */
    constructor (d: Deployment, sender: InstructionSender, settlement: PolicySettlement, token: Token,
                 pools: map<Address, FxrpPayoutExecutor>)
      requires sender.self == d.sender && sender.owner == d.senderOwner
      requires settlement.owner == d.settlementOwner && settlement.instructionSender == d.sender
      requires pools.Keys == d.pools.Keys
      requires forall a :: a in pools ==>
                 pools[a].self == a && pools[a].fxrp == token
                 && Tokens.Pool(pools[a].settlement, pools[a].owner) == d.pools[a]
      requires sender.Storage() == InstructionSending.Storage(0, map[], map[])
      requires settlement.Storage() == Settling.Storage(0, ZERO_ADDRESS, map[], {})
      requires token.Ledger() == Tokens.Ledger(d.initialBalances, [])
      ensures Valid() && this.d == d && State() == Genesis(d) && Reachable(d, State())
    {
      this.d, this.sender, this.settlement, this.token, this.pools := d, sender, settlement, token, pools;
      extensions, machines, verifiable, instructions := [], map[], {}, map[];
      enclaves, signed, evaluations, enclaveLog := map[], {}, [], [];
      payouts, executors := [], {};
      new;
      GenesisIsReachable(d);
    }

    ghost predicate Valid() {
      && sender.self == d.sender && sender.owner == d.senderOwner
      && settlement.owner == d.settlementOwner && settlement.instructionSender == d.sender
      && pools.Keys == d.pools.Keys
      && forall a :: a in pools ==>
           pools[a].self == a && pools[a].fxrp == token
           && Tokens.Pool(pools[a].settlement, pools[a].owner) == d.pools[a]
    }

    ghost function State(): World
      reads this, sender, settlement, token
    {
      World(sender.Storage(), settlement.Storage(), token.Ledger(), extensions, machines, verifiable, instructions,
            enclaves, signed, evaluations, enclaveLog, payouts, executors)
    }

    function Context(): Settling.Context
      reads this, sender
    {
      Settling.Context(d.keccak, d.recover, d.chainId, machines, sender.policyTriggerRequestHash)
    }

    /** Calls to InstructionSender. */
    method CallSender(c: Call) returns (ok: bool)
      requires Valid()
      requires c.RegisterPolicyTrigger? || c.RegisterModel? || c.Evaluate? || c.SenderSetExtensionId?
      modifies this, sender
      ensures Valid() && (State(), ok) == Exec(d, old(State()), c)
    {
      OnlyOwnersConfigure(sender.Storage(), settlement.Storage(), c);
      hide InstructionSending.Evaluate, InstructionSending.RegisterPolicyTrigger, InstructionSending.SetExtensionId;
      ok := false;
      match c
      case RegisterPolicyTrigger(caller, policyId, requestHash) =>
        if CanCall(d, caller) {
          var error := sender.RegisterPolicyTrigger(caller, policyId, requestHash);
          ok := error.None?;
        }
      case RegisterModel(ciphertext, newId, accepted) =>
        if sender.extensionId != 0 && accepted && newId !in instructions {
          instructions := instructions[newId := Instruction(Enclave.RegisterModel, ciphertext)];
          ok := true;
        }
      case Evaluate(policyId, payoutTo, proof, newId, accepted) =>
        var message := sender.Evaluate(d.keccak, proof in verifiable, accepted && newId !in instructions,
                                       policyId, payoutTo, proof);
        if message.Ok? {
          instructions := instructions[newId := Instruction(Enclave.Evaluate, message.value)];
          evaluations := evaluations + [Evaluation(newId, policyId, payoutTo, proof)];
          ok := true;
        }
      case SenderSetExtensionId =>
        var error := sender.SetExtensionId(extensions);
        ok := error.None?;
    }

    /** Calls that configure PolicySettlement. */
    method ConfigureSettlement(c: Call) returns (ok: bool)
      requires Valid() && (c.SettlementSetExtensionId? || c.SetPayoutExecutor?)
      modifies this, settlement
      ensures Valid() && (State(), ok) == Exec(d, old(State()), c)
    {
      OnlyOwnersConfigure(sender.Storage(), settlement.Storage(), c);
      hide Settling.SetExtensionId, Settling.SetPayoutExecutor;
      ok := false;
      match c
      case SettlementSetExtensionId =>
        var error := settlement.SetExtensionId(extensions);
        ok := error.None?;
      case SetPayoutExecutor(caller, executor, hasCode) =>
        if CanCall(d, caller) {
          var error := settlement.SetPayoutExecutor(caller, executor, hasCode && executor != ZERO_ADDRESS);
          ok := error.None?;
          if ok {
            executors := executors + {executor};
          }
        }
    }

    /** Calls that move tokens without settling. */
    method MoveTokens(c: Call) returns (ok: bool)
      requires Valid() && (c.ExecutePayout? || c.Withdraw? || c.TransferTokens?)
      modifies token
      ensures Valid() && (State(), ok) == Exec(d, old(State()), c)
    {
      hide Tokens.ExecutePayout, Tokens.Withdraw, Tokens.Move;
      ok := false;
      if !CanCall(d, c.caller) {
        return;
      }
      match c
      case ExecutePayout(caller, pool, policyId, to, amount) =>
        if pool in pools {
          var error := pools[pool].ExecutePayout(caller, policyId, to, amount);
          ok := error.None?;
        }
      case Withdraw(caller, pool, to, amount) =>
        if pool in pools {
          var error := pools[pool].Withdraw(caller, to, amount);
          ok := error.None?;
        }
      case TransferTokens(caller, to, amount) =>
        ok := token.Move(caller, to, amount, Tokens.Plain);
    }

    /** The registries and FDC. */
    method ChangeRegistries(c: Call) returns (ok: bool)
      requires Valid() && (c.RegisterExtension? || c.UpdateMachine? || c.Attest?)
      modifies this
      ensures Valid() && (State(), ok) == Exec(d, old(State()), c)
    {
      ok := true;
      match c
      case RegisterExtension(instructionsSender) => extensions := extensions + [instructionsSender];
      case UpdateMachine(tee, machine) => machines := machines[tee := machine];
      case Attest(proof) => verifiable := verifiable + {proof};
    }

    /** One transaction or nested call. */
    method Execute(c: Call) returns (ok: bool)
      requires Valid()
      modifies this, sender, settlement, token
      ensures Valid() && (State(), ok) == Exec(d, old(State()), c)
      decreases c, 1
    {
      if c.Settle? {
        ok := settlement.Settle(this, c.arguments, c.inner, c.returns_);
      } else if c.SettlementSetExtensionId? || c.SetPayoutExecutor? {
        ok := ConfigureSettlement(c);
      } else if c.ExecutePayout? || c.Withdraw? || c.TransferTokens? {
        ok := MoveTokens(c);
      } else if c.RegisterExtension? || c.UpdateMachine? || c.Attest? {
        ok := ChangeRegistries(c);
      } else {
        ok := CallSender(c);
      }
    }

    /** The calls of an unknown executor, one after the other. */
    method ExecuteAll(calls: seq<Call>)
      requires Valid()
      modifies this, sender, settlement, token
      ensures Valid() && State() == ExecAll(d, old(State()), calls)
      decreases calls, 1
    {
      if calls != [] {
        var _ := Execute(calls[0]);
        ExecuteAll(calls[1..]);
      }
    }

    /** A whole run: transactions on the contracts, interleaved with whatever enclaves do. The
        objects stay in a reachable state, so every guarantee about reachable states holds of them. */
    method RunSteps(steps: seq<Step>)
      requires Valid() && Reachable(d, State()) && FeasibleRun(d, State(), steps)
      modifies this, sender, settlement, token
      ensures Valid() && State() == Run(d, old(State()), steps) && Reachable(d, State())
      decreases steps
    {
      hide Exec, Process, Feasible, Reachable;
      if steps != [] {
        ReachableStep(d, State(), steps[0]);
        if steps[0].Transaction? {
          var _ := Execute(steps[0].call);
        } else {
          OffChain(steps[0]);
        }
        RunSteps(steps[1..]);
      }
    }

    /** What enclaves do touches no contract. */
    ghost method OffChain(step: Step)
      requires Valid() && !step.Transaction?
      modifies this
      ensures Valid() && State() == Next(d, old(State()), step)
    {
      var t := Next(d, State(), step);
      enclaves, signed, enclaveLog := t.enclaves, t.signed, t.enclaveLog;
    }
  }
}
