/** The invariants over whole call trees, single steps and whole runs. */
module Reachability {
  import opened Wrappers
  import opened Bytes
  import opened Registries
  import opened Tokens
  import opened World
  import opened Invariants
  import opened Preservation
  import DecisionCodec
  import Enclave
  import Scoring
  import Settling

  // ---- the money

  lemma PoolPayoutsAppend(d: Deployment, payouts: seq<PayoutCall>, c: PayoutCall)
    ensures PoolPayouts(d, payouts + [c]) == PoolPayouts(d, payouts) + if c.executor in d.pools then [c] else []
  {
    assert (payouts + [c])[..|payouts|] == payouts;
  }

  lemma PayoutTransfersAppend(d: Deployment, transfers: seq<Transfer>, t: Transfer)
    ensures PayoutTransfers(d, transfers + [t])
            == PayoutTransfers(d, transfers)
               + if BoundPool(d, t.from) && t.kind.Payout? then [PayoutCall(t.from, t.kind.policyId, t.to, t.amount)] else []
  {
    assert (transfers + [t])[..|transfers|] == transfers;
  }

  /** A token transfer that is no payout of this settlement's pools. */
  lemma OtherTransferKeepsMoney(d: Deployment, s: World, t: Transfer)
    requires MoneyOk(d, s) && Move(s.ledger, t).Some?
    requires t.from in d.pools ==> !t.kind.Plain? && (t.kind.Payout? ==> !BoundPool(d, t.from))
    ensures MoneyOk(d, s.(ledger := Move(s.ledger, t).value))
  {
    hide Balanced, PayoutTransfers, PoolPayouts;
    MoveKeepsBalanced(d.initialBalances, s.ledger, t);
    PayoutTransfersAppend(d, s.ledger.transfers, t);
  }

  /** A payout call through a pool moves exactly its amount to exactly its recipient. */
  lemma PoolPayoutKeepsMoney(d: Deployment, s: World, executor: Address, policyId: Word, to: Address, amount: nat)
    requires MoneyOk(d, s) && executor in d.pools
    requires Tokens.ExecutePayout(s.ledger, d.pools[executor], executor, d.settlement, policyId, to, amount).Ok?
    ensures var l := Tokens.ExecutePayout(s.ledger, d.pools[executor], executor, d.settlement, policyId, to, amount).value;
            MoneyOk(d, s.(ledger := l, payouts := s.payouts + [PayoutCall(executor, policyId, to, amount)]))
  {
    hide Balanced, PayoutTransfers, PoolPayouts;
    var t := Transfer(executor, to, amount, Payout(policyId));
    MoveKeepsBalanced(d.initialBalances, s.ledger, t);
    PayoutTransfersAppend(d, s.ledger.transfers, t);
    PoolPayoutsAppend(d, s.payouts, PayoutCall(executor, policyId, to, amount));
  }

  lemma ForeignPayoutKeepsMoney(d: Deployment, s: World, t: World, c: PayoutCall)
    requires MoneyOk(d, s) && c.executor !in d.pools
    requires t.ledger == s.ledger && t.payouts == s.payouts + [c]
    ensures MoneyOk(d, t)
  {
    PoolPayoutsAppend(d, s.payouts, c);
  }

  // ---- calls

  /** What a call has to keep. */
  ghost predicate Kept(d: Deployment, s: World, t: World) {
    Inv(d, t) && Extends(s, t) && SameOffChain(s, t)
  }

  lemma LedgerCallKeeps(d: Deployment, s: World, c: Call)
    requires Inv(d, s) && (c.ExecutePayout? || c.Withdraw? || c.TransferTokens?)
    ensures Kept(d, s, Exec(d, s, c).0)
  {
    hide MoneyOk, Core, Kept;
    var t := Exec(d, s, c).0;
    SameWorldIsKept(d, s);
    if t != s {
      var transfer := match c
        case ExecutePayout(caller, pool, policyId, to, amount) => Transfer(pool, to, amount, Payout(policyId))
        case Withdraw(caller, pool, to, amount) => Transfer(pool, to, amount, Withdrawal)
        case TransferTokens(caller, to, amount) => Transfer(caller, to, amount, Plain);
      assert Move(s.ledger, transfer).Some? && t == s.(ledger := Move(s.ledger, transfer).value);
      OtherTransferKeepsMoney(d, s, transfer);
      LedgerChangeKeeps(d, s, t);
    }
  }

  lemma LedgerChangeKeeps(d: Deployment, s: World, t: World)
    requires Core(d, s) && t == s.(ledger := t.ledger) && s.ledger.transfers <= t.ledger.transfers
    requires MoneyOk(d, t)
    ensures Kept(d, s, t)
  {
    hide MoneyOk;
    assert Extends(s, t);
    QuietKeepsCore(d, s, t);
  }

  lemma StorageCallKeeps(d: Deployment, s: World, c: Call)
    requires Inv(d, s)
    requires c.RegisterPolicyTrigger? || c.RegisterModel? || c.SenderSetExtensionId? || c.SettlementSetExtensionId?
    ensures Kept(d, s, Exec(d, s, c).0)
  {
    hide MoneyOk, Kept, Core;
    var t := Exec(d, s, c).0;
    SameWorldIsKept(d, s);
    if t != s {
      assert t == s.(sender := t.sender, settlement := t.settlement, instructions := t.instructions);
      StorageChangeKeeps(d, s, t);
    }
  }

  lemma StorageChangeKeeps(d: Deployment, s: World, t: World)
    requires Inv(d, s)
    requires t == s.(sender := t.sender, settlement := t.settlement, instructions := t.instructions)
    requires SenderGrows(s.sender, t.sender) && InstructionsGrow(s.instructions, t.instructions)
    requires t.settlement == s.settlement.(extensionId := t.settlement.extensionId)
    requires s.settlement.extensionId != 0 ==> t.settlement == s.settlement
    requires ScansOk(d, s) ==> ScansOk(d, t)
    requires forall id :: id in t.instructions ==> id in s.instructions || t.instructions[id].command == Enclave.RegisterModel
    ensures Kept(d, s, t)
  {
    hide EvaluationsOk, EnclavesOk, LogOk, LoadsOk, AllSignedOk, AllInCustody, MachinesAttested, OneToOne, ScansOk, PaidOnce;
    UntouchedMoney(d, s, t);
    assert Extends(s, t);
    QuietKeepsCore(d, s, t);
  }

  lemma ExecutorSwapKeeps(d: Deployment, s: World, c: Call)
    requires Inv(d, s) && c.SetPayoutExecutor?
    ensures Kept(d, s, Exec(d, s, c).0)
  {
    hide EvaluationsOk, EnclavesOk, LogOk, LoadsOk, AllSignedOk, AllInCustody, MachinesAttested, OneToOne, MoneyOk, PaidOnce;
    var t := Exec(d, s, c).0;
    SameWorldIsKept(d, s);
    if t != s {
      UntouchedMoney(d, s, t);
      assert Extends(s, t);
      QuietKeepsCore(d, s, t);
    }
  }

  lemma EvaluateCallKeeps(d: Deployment, s: World, c: Call)
    requires Inv(d, s) && c.Evaluate?
    ensures Kept(d, s, Exec(d, s, c).0)
  {
    hide Core, Extends, PayoutTransfers, PoolPayouts, Balanced;
    EvaluateKeepsCore(d, s, c.policyId, c.payoutTo, c.proof, c.newId, c.accepted);
  }

  /** One call and everything nested in it keep the invariants, whatever an unknown executor does. */
  lemma {:induction false} ExecKeeps(d: Deployment, s: World, c: Call)
    requires Inv(d, s) && d.chainId < UINT256_LIMIT
    requires AllowedCall(d, s, c)
    ensures Kept(d, s, Exec(d, s, c).0)
    decreases c, 1
  {
    match c
    case RegisterPolicyTrigger(_, _, _) => StorageCallKeeps(d, s, c);
    case RegisterModel(_, _, _) => StorageCallKeeps(d, s, c);
    case Evaluate(_, _, _, _, _) => EvaluateCallKeeps(d, s, c);
    case SenderSetExtensionId => StorageCallKeeps(d, s, c);
    case SettlementSetExtensionId => StorageCallKeeps(d, s, c);
    case SetPayoutExecutor(_, _, _) => ExecutorSwapKeeps(d, s, c);
    case Settle(a, inner, returns_) => SettleKeeps(d, s, a, inner, returns_);
    case ExecutePayout(_, _, _, _, _) => LedgerCallKeeps(d, s, c);
    case Withdraw(_, _, _, _) => LedgerCallKeeps(d, s, c);
    case TransferTokens(_, _, _) => LedgerCallKeeps(d, s, c);
    case RegisterExtension(_) => RegistryCallKeeps(d, s, c);
    case UpdateMachine(_, _) => RegistryCallKeeps(d, s, c);
    case Attest(_) => RegistryCallKeeps(d, s, c);
  }

  lemma SameWorldIsKept(d: Deployment, s: World)
    requires Inv(d, s)
    ensures Kept(d, s, s)
  {
  }

  lemma {:induction false} SettleKeeps(
    d: Deployment, s: World, a: Settling.Arguments, inner: seq<Call>, returns_: bool)
    requires Inv(d, s) && d.chainId < UINT256_LIMIT
    requires AllowedCall(d, s, Settle(a, inner, returns_))
    ensures Kept(d, s, ExecSettle(d, s, a, inner, returns_).0)
    decreases inner, 2
  {
    hide Core, MoneyOk, Extends, Settling.Check, Unforged, AllowedCalls;
    var checked := Settling.Check(s.settlement, ContextOf(d, s), a);
    var executor := s.settlement.executor;
    SameWorldIsKept(d, s);
    if checked.Ok? {
      var decision := checked.value;
      if decision.value == 0 {
        var t := Recorded(s, a.id, decision);
        RecordKeepsCore(d, s, a, decision, t);
        UntouchedMoney(d, s, t);
      } else if executor != ZERO_ADDRESS {
        var calling := Calling(s, a.id, decision);
        RecordKeepsCore(d, s, a, decision, calling);
        if executor in d.pools {
          PoolSettleKeeps(d, s, calling, a.id, decision);
        } else if returns_ {
          ForeignPayoutKeepsMoney(d, s, calling,
                                  PayoutCall(executor, decision.policyId, decision.payoutTo, decision.value));
          ExecAllKeeps(d, calling, inner);
          ExtendsIsTransitive(s, calling, ExecAll(d, calling, inner));
        }
      }
    }
  }

  lemma UntouchedMoney(d: Deployment, s: World, t: World)
    requires MoneyOk(d, s) && t.ledger == s.ledger && t.payouts == s.payouts
    ensures MoneyOk(d, t)
  {
  }

  lemma PoolSettleKeeps(d: Deployment, s: World, calling: World, id: Word, decision: DecisionCodec.Tuple)
    requires MoneyOk(d, s) && Core(d, calling) && Extends(s, calling) && SameOffChain(s, calling)
    requires s.settlement.executor in d.pools && calling == Calling(s, id, decision)
    ensures var paid := Tokens.ExecutePayout(s.ledger, d.pools[s.settlement.executor], s.settlement.executor, d.settlement,
                                             decision.policyId, decision.payoutTo, decision.value);
            paid.Ok? ==> Kept(d, s, calling.(ledger := paid.value))
  {
    hide EvaluationsOk, EnclavesOk, LogOk, LoadsOk, AllSignedOk, AllInCustody, MachinesAttested, OneToOne, PaidOnce, ScansOk;
    var executor := s.settlement.executor;
    var paid := Tokens.ExecutePayout(s.ledger, d.pools[executor], executor, d.settlement,
                                     decision.policyId, decision.payoutTo, decision.value);
    if paid.Ok? {
      var t := calling.(ledger := paid.value);
      PoolPayoutKeepsMoney(d, s, executor, decision.policyId, decision.payoutTo, decision.value);
      UntouchedMoney(d, s.(ledger := paid.value, payouts := calling.payouts), t);
      LedgerChangeKeeps(d, calling, t);
      ExtendsIsTransitive(s, calling, t);
    }
  }

  lemma {:induction false} ExecAllKeeps(d: Deployment, s: World, calls: seq<Call>)
    requires Inv(d, s) && d.chainId < UINT256_LIMIT
    requires AllowedCalls(d, s, calls)
    ensures Kept(d, s, ExecAll(d, s, calls))
    decreases calls, 1
  {
    hide Core, MoneyOk, Extends;
    SameWorldIsKept(d, s);
    if calls != [] {
      var t := Exec(d, s, calls[0]).0;
      ExecKeeps(d, s, calls[0]);
      ExecAllKeeps(d, t, calls[1..]);
      ExtendsIsTransitive(s, t, ExecAll(d, t, calls[1..]));
    }
  }

  // ---- the enclaves and the registries

  lemma HeldAppend(log: seq<EnclaveEvent>, e: EnclaveEvent, tee: Address)
    ensures Held(log + [e], tee)
            == match e
               case Started(t) => if t == tee then map[] else Held(log, tee)
               case Loaded(t, _, policyId, model) => if t == tee then Held(log, tee)[policyId := model] else Held(log, tee)
               case Scored(_, _, _, _, _) => Held(log, tee)
  {
    assert (log + [e])[..|log|] == log;
  }

  /** The history records exactly what the enclave's memory became. */
  lemma EventsMatchMemory(log: seq<EnclaveEvent>, tee: Address, other: Address, action: Enclave.Action,
                          memory: Enclave.Memory, secret: Enclave.Opened)
    requires action.isPolicy && memory == Held(log, tee)
    ensures var after := log + EventsOf(tee, action, memory, secret);
            Held(after, other) == if other == tee then Enclave.Process(memory, action, secret).0 else Held(log, other)
  {
    hide Held, DecisionCodec.Decode, Enclave.Decide, Enclave.Registration;
    assert log + [] == log;
    var events := EventsOf(tee, action, memory, secret);
    if events != [] {
      HeldAppend(log, events[0], other);
    }
  }

  lemma ProcessKeepsEnclaves(s: World, t: World, tee: Address, id: Word, tag: Bytes, secret: Enclave.Opened)
    requires EnclavesOk(s) && tee in s.enclaves && id in s.instructions && t == Process(s, tee, id, tag, secret)
    ensures EnclavesOk(t)
  {
    hide Enclave.Process, EventsOf, Held, Enclave.AllValid;
    var action := ActionFor(id, tag, s.instructions[id]);
    forall other | other in t.enclaves
      ensures t.enclaves[other] == Held(t.enclaveLog, other) && Enclave.AllValid(t.enclaves[other])
    {
      EventsMatchMemory(s.enclaveLog, tee, other, action, s.enclaves[tee], secret);
      Enclave.ProcessKeepsModelsValid(s.enclaves[tee], action, secret);
    }
  }

  /** A new scoring entry holds the model of that moment; older entries stand. */
  lemma ProcessKeepsLog(s: World, t: World, tee: Address, id: Word, tag: Bytes, secret: Enclave.Opened)
    requires EnclavesOk(s) && LogOk(s) && tee in s.enclaves && id in s.instructions
    requires t == Process(s, tee, id, tag, secret) && Extends(s, t)
    ensures LogOk(t)
  {
    forall k | 0 <= k < |t.enclaveLog| && t.enclaveLog[k].Scored? ensures ScoringOk(t, k) {
      if k < |s.enclaveLog| {
        ScoringCarries(s, t, k);
      } else {
        assert t.enclaveLog[..k] == s.enclaveLog;
      }
    }
  }

  /** A new load is the effect of the REGISTER_MODEL instruction processed; older loads stand. */
  lemma ProcessKeepsLoads(s: World, t: World, tee: Address, id: Word, tag: Bytes, secret: Enclave.Opened)
    requires LoadsOk(s) && tee in s.enclaves && id in s.instructions
    requires t == Process(s, tee, id, tag, secret)
    ensures LoadsOk(t)
  {
    hide Scoring.Validate, DecisionCodec.Decode, Enclave.Decide;
    forall k | 0 <= k < |t.enclaveLog| && t.enclaveLog[k].Loaded? ensures LoadOk(t, k) {
      if k < |s.enclaveLog| {
        assert t.enclaveLog[k] == s.enclaveLog[k] && LoadOk(s, k);
      }
    }
  }

  /** What the tee-node signs here is fine: failures and registrations carry no decision, and
      a decision answers the scoring just recorded. */
  lemma NewSignatureIsOk(s: World, t: World, tee: Address, id: Word, tag: Bytes, secret: Enclave.Opened)
    requires EnclavesOk(s) && LogOk(t) && tee in s.enclaves && id in s.instructions
    requires t == Process(s, tee, id, tag, secret)
    ensures var reply := Enclave.Process(s.enclaves[tee], ActionFor(id, tag, s.instructions[id]), secret).1;
            reply.Answer? ==> SignedOk(t, Signed(tee, SignableOf(reply.result)))
  {
    var action := ActionFor(id, tag, s.instructions[id]);
    var reply := Enclave.Process(s.enclaves[tee], action, secret).1;
    if reply.Answer? && reply.result.status == 1 && |reply.result.data| == DecisionCodec.TUPLE_SIZE {
      Enclave.OnlyEvaluationsCarryDecisions(s.enclaves[tee], action, secret);
      var k := |s.enclaveLog|;
      assert t.enclaveLog == s.enclaveLog + EventsOf(tee, action, s.enclaves[tee], secret);
      assert t.enclaveLog[k].Scored? && ScoringOk(t, k);
      assert AnswersScoring(t, Signed(tee, SignableOf(reply.result)), k);
    }
  }

  /** A step off the chain keeps everything that is on it. */
  lemma OffChainKeepsCore(d: Deployment, s: World, t: World)
    requires Core(d, s) && Extends(s, t)
    requires t.sender == s.sender && t.settlement == s.settlement && t.instructions == s.instructions
    requires t.evaluations == s.evaluations && t.payouts == s.payouts && t.executors == s.executors
    requires EnclavesOk(t) && LogOk(t) && LoadsOk(t) && AllSignedOk(t) && ScansOk(d, t) && MachinesAttested(d, t)
    ensures Core(d, t)
  {
    hide EvaluationOk, ScoringOk, SignedOk, Custody, EnclavesOk, LogOk, LoadsOk, ScansOk, MachinesAttested, OneToOne, PaidOnce,
      InstructionsBacked, EvaluationsForward;
    EvidenceCarries(d, s, t);
  }

  lemma ProcessKeeps(d: Deployment, s: World, tee: Address, id: Word, tag: Bytes, secret: Enclave.Opened)
    requires Inv(d, s)
    ensures var t := Process(s, tee, id, tag, secret); Inv(d, t) && Extends(s, t)
  {
    hide Enclave.Process, SignedOk, MoneyOk, EventsOf;
    var t := Process(s, tee, id, tag, secret);
    UntouchedMoney(d, s, t);
    if tee in s.enclaves && id in s.instructions {
      assert Extends(s, t);
      ProcessKeepsEnclaves(s, t, tee, id, tag, secret);
      ProcessKeepsLog(s, t, tee, id, tag, secret);
      ProcessKeepsLoads(s, t, tee, id, tag, secret);
      NewSignatureIsOk(s, t, tee, id, tag, secret);
      forall x | x in t.signed ensures SignedOk(t, x) {
        if x in s.signed {
          SignedCarries(s, t, x);
        }
      }
      OffChainKeepsCore(d, s, t);
    }
  }

  lemma StartKeeps(d: Deployment, s: World, tee: Address)
    requires Inv(d, s)
    ensures var t := Next(d, s, StartEnclave(tee)); Inv(d, t) && Extends(s, t)
  {
    hide SignedOk, MoneyOk, ScoringOk, LoadOk, Held;
    var t := Next(d, s, StartEnclave(tee));
    UntouchedMoney(d, s, t);
    assert Extends(s, t);
    forall other | other in t.enclaves
      ensures t.enclaves[other] == Held(t.enclaveLog, other) && Enclave.AllValid(t.enclaves[other])
    {
      HeldAppend(s.enclaveLog, Started(tee), other);
    }
    EvidenceCarries(d, s, t);
    OffChainKeepsCore(d, s, t);
  }

  /** The registries and FDC: changes that leave the machines attested keep everything. */
  lemma RegistryCallKeeps(d: Deployment, s: World, c: Call)
    requires Inv(d, s) && AllowedCall(d, s, c) && (c.RegisterExtension? || c.UpdateMachine? || c.Attest?)
    ensures Kept(d, s, Exec(d, s, c).0)
  {
    hide SignedOk, MoneyOk, ScoringOk, LoadOk, MachinesAttested, EnclavesOk;
    var t := Exec(d, s, c).0;
    UntouchedMoney(d, s, t);
    assert Extends(s, t);
    assert ScansOk(d, t) by {
      if FindExtension(s.extensions, d.sender).Some? {
        LaterScanAgrees(s.extensions, t.extensions, d.sender, 0);
      }
    }
    EvidenceCarries(d, s, t);
    assert EnclavesOk(t) by { SameEnclaves(s, t); }
    assert MachinesAttested(d, t) by { StillAttested(d, s, t, c); }
    OffChainKeepsCore(d, s, t);
  }

  lemma StillAttested(d: Deployment, s: World, t: World, c: Call)
    requires MachinesAttested(d, s) && AllowedCall(d, s, c) && t == Exec(d, s, c).0
    requires c.RegisterExtension? || c.UpdateMachine? || c.Attest?
    ensures MachinesAttested(d, t)
  {
  }

  lemma SameEnclaves(s: World, t: World)
    requires EnclavesOk(s) && t.enclaves == s.enclaves && t.enclaveLog == s.enclaveLog
    ensures EnclavesOk(t)
  {
  }

  // ---- runs

  /** One step keeps the invariants and undoes nothing. */
  lemma NextKeeps(d: Deployment, s: World, step: Step)
    requires Inv(d, s) && Feasible(d, s, step)
    ensures Inv(d, Next(d, s, step)) && Extends(s, Next(d, s, step))
  {
    hide Core, MoneyOk, Extends, MachinesAttested, AllowedCall;
    match step
    case Transaction(call) => ExecKeeps(d, s, call);
    case ProcessInstruction(tee, id, tag, secret) => ProcessKeeps(d, s, tee, id, tag, secret);
    case StartEnclave(tee) => StartKeeps(d, s, tee);
  }

  lemma {:induction false} RunKeeps(d: Deployment, s: World, steps: seq<Step>)
    requires Inv(d, s) && FeasibleRun(d, s, steps)
    ensures Inv(d, Run(d, s, steps)) && Extends(s, Run(d, s, steps))
    decreases steps
  {
    hide Core, MoneyOk, Extends, Feasible;
    if steps != [] {
      var t := Next(d, s, steps[0]);
      NextKeeps(d, s, steps[0]);
      RunKeeps(d, t, steps[1..]);
      ExtendsIsTransitive(s, t, Run(d, t, steps[1..]));
    } else {
      SameWorldIsKept(d, s);
    }
  }

  lemma GenesisIsFine(d: Deployment)
    ensures Inv(d, Genesis(d))
  {
    forall account: Address ensures Accounted(d.initialBalances, Genesis(d).ledger, account) {
    }
  }

  /** Every reachable state satisfies the invariants. */
  lemma ReachableIsFine(d: Deployment, steps: seq<Step>)
    requires FeasibleRun(d, Genesis(d), steps)
    ensures Inv(d, Run(d, Genesis(d), steps))
  {
    GenesisIsFine(d);
    RunKeeps(d, Genesis(d), steps);
  }
}
