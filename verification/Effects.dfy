/** What calls do to the whole system, told by their arguments and the state before: when a settle
    succeeds and what stands after it, and whose words the triggers and the executor are. */
module Effects {
  import opened Wrappers
  import opened Bytes
  import opened Requests
  import opened Tokens
  import opened World
  import opened Guarantees
  import DecisionCodec
  import Enclave
  import InstructionSending
  import Settling

  // ---- settle

  /** While the executor is being called, the instruction is consumed and the policy settled with the
      decision's amount and recipient, the call is on the stack, and nothing else has changed. */
  lemma DuringThePayout(s: World, id: Word, decision: DecisionCodec.Tuple)
    requires decision.value > 0
    ensures var during := Calling(s, id, decision);
            && during.settlement.decisionSettled == s.settlement.decisionSettled + {id}
            && during.settlement.settlementOf
               == s.settlement.settlementOf[decision.policyId :=
                    Settling.Settlement(true, decision.payoutTo, decision.value, id)]
            && during.settlement.extensionId == s.settlement.extensionId
            && during.settlement.executor == s.settlement.executor
            && during.payouts
               == s.payouts + [PayoutCall(s.settlement.executor, decision.policyId, decision.payoutTo, decision.value)]
            && during == s.(settlement := during.settlement, payouts := during.payouts)
  {
  }

  /** A refused settle changes nothing. A checked one succeeds exactly when nothing is owed, or there
      is an executor and its call succeeds: a pool's when it serves this settlement, the recipient is
      an address and it can pay; an unknown executor's when it returns. If it does not succeed nothing
      has changed; if it does, the policy is settled with this decision and the instruction consumed. */
  lemma SettleSucceedsIff(d: Deployment, s: World, a: Settling.Arguments, inner: seq<Call>, returns_: bool)
    ensures var checked, executor := Settling.Check(s.settlement, ContextOf(d, s), a), s.settlement.executor;
            var (t, ok) := Exec(d, s, Settle(a, inner, returns_));
            && (ok <==> checked.Ok?
                        && (checked.value.value == 0
                            || (executor != ZERO_ADDRESS
                                && if executor in d.pools then
                                     && d.pools[executor].settlement == d.settlement
                                     && checked.value.payoutTo != ZERO_ADDRESS
                                     && checked.value.value <= BalanceOf(s.ledger.balances, executor)
                                   else returns_)))
            && (!ok ==> t == s)
            && (ok ==>
                  var decision := checked.value;
                  && a.id in t.settlement.decisionSettled
                  && decision.policyId in t.settlement.settlementOf
                  && t.settlement.settlementOf[decision.policyId]
                     == Settling.Settlement(true, if decision.value > 0 then decision.payoutTo else ZERO_ADDRESS, decision.value, a.id))
  {
    hide Settling.Check, ExecAll, Tokens.ExecutePayout;
    var checked, executor := Settling.Check(s.settlement, ContextOf(d, s), a), s.settlement.executor;
    if checked.Ok? && checked.value.value > 0 && executor != ZERO_ADDRESS {
      var decision := checked.value;
      DuringThePayout(s, a.id, decision);
      if executor in d.pools {
        PoolCallsMoveOrRefuse(s.ledger, d.pools[executor], executor, d.settlement, decision.policyId, decision.payoutTo, decision.value);
      } else {
        SettledStandsThroughCalls(d, Calling(s, a.id, decision), inner, decision.policyId, a.id);
      }
    }
  }

  /** What a successful settle moves and logs: nothing when nothing is owed; through a pool one
      transfer and one payout call; through an unknown executor one payout call, and then exactly what
      the executor's own calls do. */
  lemma SettleMoves(d: Deployment, s: World, a: Settling.Arguments, inner: seq<Call>, returns_: bool)
    requires Exec(d, s, Settle(a, inner, returns_)).1
    ensures Settling.Check(s.settlement, ContextOf(d, s), a).Ok?
    ensures var decision, executor := Settling.Check(s.settlement, ContextOf(d, s), a).value, s.settlement.executor;
            var t := Exec(d, s, Settle(a, inner, returns_)).0;
            var call := PayoutCall(executor, decision.policyId, decision.payoutTo, decision.value);
            && (decision.value == 0 ==> t == s.(settlement := t.settlement))
            && (decision.value > 0 && executor in d.pools ==>
                  && t == s.(settlement := t.settlement, ledger := t.ledger, payouts := s.payouts + [call])
                  && t.ledger.transfers == s.ledger.transfers
                       + [Transfer(executor, decision.payoutTo, decision.value, Payout(decision.policyId))])
            && (decision.value > 0 && executor !in d.pools ==> t == ExecAll(d, Calling(s, a.id, decision), inner))
  {
    hide Settling.Check, ExecAll;
  }

  /** An executor's calls are made one after the other, each in the state the one before left. */
  lemma {:induction false} CallsInOrder(d: Deployment, s: World, first: seq<Call>, c: Call)
    ensures ExecAll(d, s, first + [c]) == Exec(d, ExecAll(d, s, first), c).0
    decreases |first|
  {
    hide Exec;
    if first == [] {
      assert first + [c] == [c] && [c][1..] == [];
      assert ExecAll(d, s, [c]) == ExecAll(d, Exec(d, s, c).0, []) == Exec(d, s, c).0;
    } else {
      assert (first + [c])[1..] == first[1..] + [c] && (first + [c])[0] == first[0];
      CallsInOrder(d, Exec(d, s, first[0]).0, first[1..], c);
    }
  }

  /** Once settled and consumed, through any calls whatever, forged signatures included. */
  lemma {:induction false} SettledStandsThroughCalls(d: Deployment, s: World, calls: seq<Call>, p: Word, id: Word)
    requires Settling.IsSettled(s.settlement, p) && id in s.settlement.decisionSettled
    ensures var t := ExecAll(d, s, calls);
            Settling.IsSettled(t.settlement, p) && t.settlement.settlementOf[p] == s.settlement.settlementOf[p]
            && id in t.settlement.decisionSettled
    decreases calls, 1
  {
    hide Exec;
    if calls != [] {
      SettledStands(d, s, calls[0], p, id);
      SettledStandsThroughCalls(d, Exec(d, s, calls[0]).0, calls[1..], p, id);
    }
  }

  lemma {:induction false} SettledStands(d: Deployment, s: World, c: Call, p: Word, id: Word)
    requires Settling.IsSettled(s.settlement, p) && id in s.settlement.decisionSettled
    ensures var t := Exec(d, s, c).0;
            Settling.IsSettled(t.settlement, p) && t.settlement.settlementOf[p] == s.settlement.settlementOf[p]
            && id in t.settlement.decisionSettled
    decreases c, 1
  {
    hide Settling.Check, ExecAll, InstructionSending.Evaluate, InstructionSending.RegisterPolicyTrigger, Tokens.ExecutePayout,
      Tokens.Withdraw, Move;
    if c.Settle? {
      var checked := Settling.Check(s.settlement, ContextOf(d, s), c.arguments);
      if checked.Ok? {
        CheckedIsOpen(s.settlement, ContextOf(d, s), c.arguments);
        SettledStandsThroughCalls(d, Calling(s, c.arguments.id, checked.value), c.inner, p, id);
      }
    }
  }

  lemma CheckedIsOpen(st: Settling.Storage, c: Settling.Context, a: Settling.Arguments)
    requires Settling.Check(st, c, a).Ok?
    ensures !Settling.IsSettled(st, Settling.Check(st, c, a).value.policyId)
  {
  }

  // ---- whose words the configuration is

  /** A call is made somewhere in a tree of calls. */
  predicate Occurs(x: Call, c: Call)
    decreases c, 1
  {
    x == c || (c.Settle? && OccursIn(x, c.inner))
  }

  predicate OccursIn(x: Call, calls: seq<Call>)
    decreases calls, 0
  {
    calls != [] && (Occurs(x, calls[0]) || OccursIn(x, calls[1..]))
  }

  /** After a call a policy's trigger is what it was, or the hash in a call the owner made. */
  lemma {:induction false} TriggerAfterCall(d: Deployment, s: World, c: Call, p: Word)
    ensures var h := InstructionSending.TriggerOf(Exec(d, s, c).0.sender, p);
            h == InstructionSending.TriggerOf(s.sender, p) || Occurs(RegisterPolicyTrigger(d.senderOwner, p, h), c)
    decreases c, 1
  {
    hide Settling.Check, ExecAll, InstructionSending.Evaluate, InstructionSending.RegisterPolicyTrigger, Tokens.ExecutePayout,
      Tokens.Withdraw, Move;
    match c
    case RegisterPolicyTrigger(caller, policyId, requestHash) =>
      InstructionSending.BindingIff(s.sender, CanCall(d, caller) && caller == d.senderOwner, policyId, requestHash);
    case Evaluate(policyId, payoutTo, proof, newId, accepted) =>
      InstructionSending.EvaluationAcceptedIff(s.sender, d.keccak, proof in s.verifiable, Accepts(s, newId, accepted),
                                               policyId, payoutTo, proof);
    case Settle(a, inner, _) =>
      var checked := Settling.Check(s.settlement, ContextOf(d, s), a);
      if checked.Ok? {
        TriggerAfterCalls(d, Calling(s, a.id, checked.value), inner, p);
      }
    case _ =>
  }

  lemma {:induction false} TriggerAfterCalls(d: Deployment, s: World, calls: seq<Call>, p: Word)
    ensures var h := InstructionSending.TriggerOf(ExecAll(d, s, calls).sender, p);
            h == InstructionSending.TriggerOf(s.sender, p) || OccursIn(RegisterPolicyTrigger(d.senderOwner, p, h), calls)
    decreases calls, 1
  {
    hide Exec;
    if calls != [] {
      TriggerAfterCall(d, s, calls[0], p);
      TriggerAfterCalls(d, Exec(d, s, calls[0]).0, calls[1..], p);
    }
  }

  /** The call was made in a run, in a transaction or inside an executor. */
  ghost predicate MadeIn(x: Call, steps: seq<Step>) {
    exists i :: 0 <= i < |steps| && steps[i].Transaction? && Occurs(x, steps[i].call)
  }

  lemma MadeLater(x: Call, steps: seq<Step>)
    requires steps != []
    ensures steps[0].Transaction? && Occurs(x, steps[0].call) ==> MadeIn(x, steps)
    ensures MadeIn(x, steps[1..]) ==> MadeIn(x, steps)
  {
    if MadeIn(x, steps[1..]) {
      var i :| 0 <= i < |steps[1..]| && steps[1..][i].Transaction? && Occurs(x, steps[1..][i].call);
      assert steps[i + 1] == steps[1..][i];
    }
  }

  lemma {:induction false} TriggerAfterRun(d: Deployment, s: World, steps: seq<Step>, p: Word)
    ensures var h := InstructionSending.TriggerOf(Run(d, s, steps).sender, p);
            h == InstructionSending.TriggerOf(s.sender, p) || MadeIn(RegisterPolicyTrigger(d.senderOwner, p, h), steps)
    decreases steps
  {
    hide Exec, Process, MadeIn, Occurs;
    if steps != [] {
      var t := Next(d, s, steps[0]);
      var h := InstructionSending.TriggerOf(Run(d, s, steps).sender, p);
      TriggerAfterRun(d, t, steps[1..], p);
      MadeLater(RegisterPolicyTrigger(d.senderOwner, p, h), steps);
      if steps[0].Transaction? {
        TriggerAfterCall(d, s, steps[0].call, p);
      } else {
        OffChainLeavesContracts(d, s, steps[0]);
      }
    }
  }

  lemma OffChainLeavesContracts(d: Deployment, s: World, step: Step)
    requires !step.Transaction?
    ensures var t := Next(d, s, step); t.sender == s.sender && t.settlement == s.settlement
  {
    hide Enclave.Process, EventsOf;
  }

  /** In every run, forged signatures or not: a bound policy is bound to a hash that the owner of
      InstructionSender gave for it. */
  lemma TriggersAreTheOwners(d: Deployment, steps: seq<Step>, p: Word)
    ensures var h := InstructionSending.TriggerOf(Run(d, Genesis(d), steps).sender, p);
            h != ZERO_WORD ==> MadeIn(RegisterPolicyTrigger(d.senderOwner, p, h), steps)
  {
    hide Run, MadeIn;
    TriggerAfterRun(d, Genesis(d), steps, p);
  }

  /** After a call the executor is what it was, or the one in a call the owner made. */
  lemma {:induction false} ExecutorAfterCall(d: Deployment, s: World, c: Call)
    ensures var e := Exec(d, s, c).0.settlement.executor;
            e == s.settlement.executor || Occurs(SetPayoutExecutor(d.settlementOwner, e, true), c)
    decreases c, 1
  {
    hide Settling.Check, ExecAll, InstructionSending.Evaluate, InstructionSending.RegisterPolicyTrigger, Tokens.ExecutePayout,
      Tokens.Withdraw, Move, Settling.SetPayoutExecutor;
    match c
    case SetPayoutExecutor(caller, executor, hasCode) =>
      Settling.SwapIff(s.settlement, CanCall(d, caller) && caller == d.settlementOwner, hasCode && executor != ZERO_ADDRESS, executor);
    case Settle(a, inner, _) =>
      var checked := Settling.Check(s.settlement, ContextOf(d, s), a);
      if checked.Ok? {
        ExecutorAfterCalls(d, Calling(s, a.id, checked.value), inner);
      }
    case _ =>
  }

  lemma {:induction false} ExecutorAfterCalls(d: Deployment, s: World, calls: seq<Call>)
    ensures var e := ExecAll(d, s, calls).settlement.executor;
            e == s.settlement.executor || OccursIn(SetPayoutExecutor(d.settlementOwner, e, true), calls)
    decreases calls, 1
  {
    hide Exec;
    if calls != [] {
      ExecutorAfterCall(d, s, calls[0]);
      ExecutorAfterCalls(d, Exec(d, s, calls[0]).0, calls[1..]);
    }
  }

  lemma {:induction false} ExecutorAfterRun(d: Deployment, s: World, steps: seq<Step>)
    ensures var e := Run(d, s, steps).settlement.executor;
            e == s.settlement.executor || MadeIn(SetPayoutExecutor(d.settlementOwner, e, true), steps)
    decreases steps
  {
    hide Exec, Process, MadeIn, Occurs;
    if steps != [] {
      var t := Next(d, s, steps[0]);
      ExecutorAfterRun(d, t, steps[1..]);
      MadeLater(SetPayoutExecutor(d.settlementOwner, Run(d, s, steps).settlement.executor, true), steps);
      if steps[0].Transaction? {
        ExecutorAfterCall(d, s, steps[0].call);
      } else {
        OffChainLeavesContracts(d, s, steps[0]);
      }
    }
  }

  /** In every run: the executor configured is one that the owner of PolicySettlement named. */
  lemma ExecutorIsTheOwners(d: Deployment, steps: seq<Step>)
    ensures var e := Run(d, Genesis(d), steps).settlement.executor;
            e != ZERO_ADDRESS ==> MadeIn(SetPayoutExecutor(d.settlementOwner, e, true), steps)
  {
    hide Run, MadeIn;
    ExecutorAfterRun(d, Genesis(d), steps);
  }

  // ---- the other calls

  /** A registration is forwarded exactly when the extension id is known and the registry takes it,
      for anyone, and its instruction is the ciphertext; nothing else changes. */
  lemma RegistrationIsForwarded(d: Deployment, s: World, ciphertext: Bytes, newId: Word, accepted: bool)
    ensures var (t, ok) := Exec(d, s, RegisterModel(ciphertext, newId, accepted));
            && (ok <==> s.sender.extensionId != 0 && accepted && newId !in s.instructions)
            && (!ok ==> t == s)
            && (ok ==> t == s.(instructions := s.instructions[newId := Instruction(Enclave.RegisterModel, ciphertext)]))
  {
  }

  /** An accepted evaluation of an encoded reading puts in flight an instruction that decodes to the
      policy, the attested rainfall and the recipient named in the call; the round of this policy
      moves to the proof's; settlements and tokens are untouched. */
  lemma EvaluationIsForwarded(d: Deployment, s: World, p: Word, payoutTo: Address, proof: Proof, newId: Word, accepted: bool,
                              latitude: Word, longitude: Word, rainfall: nat)
    requires rainfall < UINT256_LIMIT && proof.data.abiEncodedData == Reading(latitude, longitude, rainfall)
    ensures var (t, ok) := Exec(d, s, Evaluate(p, payoutTo, proof, newId, accepted));
            && (ok <==>
                  && InstructionSending.TriggerOf(s.sender, p) != ZERO_WORD
                  && d.keccak(EncodedRequest(proof.data.requestBody)) == InstructionSending.TriggerOf(s.sender, p)
                  && proof in s.verifiable && proof.data.votingRound > InstructionSending.LastRoundOf(s.sender, p)
                  && s.sender.extensionId != 0 && accepted && newId !in s.instructions)
            && (!ok ==> t == s)
            && (ok ==>
                  && newId in t.instructions && t.instructions[newId].command == Enclave.Evaluate
                  && DecisionCodec.Decode(t.instructions[newId].message) == Ok(DecisionCodec.Tuple(p, rainfall, payoutTo))
                  && InstructionSending.LastRoundOf(t.sender, p) == proof.data.votingRound
                  && t.settlement == s.settlement && t.ledger == s.ledger)
  {
    RainfallOfReading(latitude, longitude, rainfall, []);
    hide Reading, EncodedRequest, DecisionCodec.Decode, InstructionSending.Evaluate;
    InstructionSending.EvaluationAcceptedIff(s.sender, d.keccak, proof in s.verifiable, Accepts(s, newId, accepted), p, payoutTo, proof);
    if InstructionSending.Evaluate(s.sender, d.keccak, proof in s.verifiable, Accepts(s, newId, accepted), p, payoutTo, proof).Ok? {
      InstructionSending.ForwardedReading(s.sender, d.keccak, proof in s.verifiable, Accepts(s, newId, accepted), p, payoutTo, proof,
                                          latitude, longitude, rainfall);
    }
  }

  /** The owners' calls, and anyone else's, at the level of the system; the system's own contracts
      never make them. */
  lemma ConfigurationSucceedsIff(d: Deployment, s: World, caller: Address, p: Word, h: Word, executor: Address, hasCode: bool)
    requires caller != d.sender && caller != d.settlement && caller !in d.pools
    ensures var (t, ok) := Exec(d, s, RegisterPolicyTrigger(caller, p, h));
            && (ok <==> caller == d.senderOwner && p != ZERO_WORD && h != ZERO_WORD
                        && InstructionSending.TriggerOf(s.sender, p) == ZERO_WORD)
            && (ok ==> InstructionSending.TriggerOf(t.sender, p) == h) && (!ok ==> t == s)
    ensures var (t, ok) := Exec(d, s, SetPayoutExecutor(caller, executor, hasCode));
            && (ok <==> caller == d.settlementOwner && hasCode && executor != ZERO_ADDRESS)
            && (ok ==> t.settlement.executor == executor && t.payouts == s.payouts && t.ledger == s.ledger) && (!ok ==> t == s)
  {
    InstructionSending.BindingIff(s.sender, CanCall(d, caller) && caller == d.senderOwner, p, h);
    Settling.SwapIff(s.settlement, CanCall(d, caller) && caller == d.settlementOwner, hasCode && executor != ZERO_ADDRESS, executor);
  }

  /** Tokens move on a call exactly when their holder sends them and has them, or a pool's owner
      withdraws what the pool has; nobody can make a pool that serves this settlement pay directly. */
  lemma TokensMoveIff(d: Deployment, s: World, caller: Address, pool: Address, to: Address, amount: nat, p: Word)
    requires caller != d.sender && caller != d.settlement && caller !in d.pools && pool in d.pools
    ensures var (t, ok) := Exec(d, s, TransferTokens(caller, to, amount));
            && (ok <==> amount <= BalanceOf(s.ledger.balances, caller)) && (!ok ==> t == s)
            && (ok ==> t == s.(ledger := t.ledger)
                       && t.ledger.transfers == s.ledger.transfers + [Transfer(caller, to, amount, Plain)])
    ensures var (t, ok) := Exec(d, s, Withdraw(caller, pool, to, amount));
            && (ok <==> caller == d.pools[pool].owner && to != ZERO_ADDRESS && 0 < amount <= BalanceOf(s.ledger.balances, pool))
            && (!ok ==> t == s)
            && (ok ==> t == s.(ledger := t.ledger)
                       && t.ledger.transfers == s.ledger.transfers + [Transfer(pool, to, amount, Withdrawal)])
    ensures d.pools[pool].settlement == d.settlement ==> Exec(d, s, ExecutePayout(caller, pool, p, to, amount)) == (s, false)
  {
    PoolCallsMoveOrRefuse(s.ledger, d.pools[pool], pool, caller, p, to, amount);
  }
}
