/** Nothing honest gets stuck: an accepted evaluation can be scored, signed and settled by steps
    that the assumptions allow, so the runs the guarantees speak of do reach settlements. */
module Progress {
  import opened Wrappers
  import opened Bytes
  import opened Requests
  import opened Registries
  import opened Tokens
  import opened World
  import opened Invariants
  import opened Reachability
  import opened Guarantees
  import DecisionCodec
  import Enclave
  import Scoring
  import Settling
  import Signing

  lemma {:induction false} RunAppend(d: Deployment, s: World, steps: seq<Step>, last: Step)
    ensures Run(d, s, steps + [last]) == Next(d, Run(d, s, steps), last)
    ensures FeasibleRun(d, s, steps + [last]) <==> FeasibleRun(d, s, steps) && Feasible(d, Run(d, s, steps), last)
    decreases steps
  {
    hide Next, Feasible;
    if steps == [] {
      assert steps + [last] == [last] && [last][1..] == [];
      assert Run(d, Next(d, s, last), []) == Next(d, s, last);
    } else {
      assert (steps + [last])[1..] == steps[1..] + [last] && (steps + [last])[0] == steps[0];
      RunAppend(d, Next(d, s, steps[0]), steps[1..], last);
    }
  }

  lemma GenesisIsReachable(d: Deployment)
    ensures Reachable(d, Genesis(d))
  {
    assert FeasibleRun(d, Genesis(d), []) && Genesis(d) == Run(d, Genesis(d), []);
  }

  /** A feasible step from a reachable state leads to a reachable state. */
  lemma ReachableStep(d: Deployment, s: World, step: Step)
    requires Reachable(d, s) && Feasible(d, s, step)
    ensures Reachable(d, Next(d, s, step))
  {
    hide Next, Feasible, FeasibleRun, Run;
    var steps :| FeasibleRun(d, Genesis(d), steps) && s == Run(d, Genesis(d), steps);
    RunAppend(d, Genesis(d), steps, step);
  }

  /** Presenting a signature over exactly what an enclave signed is no forgery. */
  lemma OwnSignatureIsUnforged(d: Deployment, enclaves: set<Address>, signed: set<Signed>, x: Signed, signature: Bytes)
    requires x in signed
    requires Signing.RecoverTeeId(d.keccak, d.recover, d.chainId, x.result, signature) == Ok(x.tee)
    ensures Unforged(d, enclaves, signed,
                     Settling.Arguments(x.result.id, x.result.status, x.result.tag, x.result.data, signature))
  {
    hide Signing.RecoverTeeId;
    var a := Settling.Arguments(x.result.id, x.result.status, x.result.tag, x.result.data, signature);
    assert Settling.SignableOf(a) == x.result;
  }

  lemma HonestSettleIsFeasible(d: Deployment, s: World, x: Signed, signature: Bytes)
    requires d.chainId < UINT256_LIMIT && x in s.signed
    requires Signing.RecoverTeeId(d.keccak, d.recover, d.chainId, x.result, signature) == Ok(x.tee)
    ensures var a := Settling.Arguments(x.result.id, x.result.status, x.result.tag, x.result.data, signature);
            Feasible(d, s, Transaction(Settle(a, [], true)))
  {
    hide Exec, Unforged, Signing.RecoverTeeId, Settling.Check;
    var a := Settling.Arguments(x.result.id, x.result.status, x.result.tag, x.result.data, signature);
    OwnSignatureIsUnforged(d, s.enclaves.Keys, s.signed, x, signature);
    assert CallsOut(d, s, a, true) ==>
        AllowedCalls(d, Calling(s, a.id, Settling.Check(s.settlement, ContextOf(d, s), a).value), []);
  }

  /** Any enclave that holds a model for the policy turns an accepted evaluation into a signed
      decision, backed by the scoring just recorded. */
  lemma EvaluationGetsSigned(d: Deployment, s: World, e: nat, tee: Address, tag: Bytes, secret: Enclave.Opened)
    requires Inv(d, s) && e < |s.evaluations| && tee in s.enclaves && s.evaluations[e].policyId in s.enclaves[tee]
    ensures var v, t, k := s.evaluations[e], Process(s, tee, s.evaluations[e].id, tag, secret), |s.enclaveLog|;
            var model := s.enclaves[tee][v.policyId];
            && Rainfall(v.proof.data.abiEncodedData).Some?
            && Scoring.Valid(model)
            && Inv(d, t)
            && k < |t.enclaveLog| && t.enclaveLog[k] == Scored(tee, v.id, tag, v.policyId, model)
            && ScoringOk(t, k)
            && var amount: int := Scoring.Payout(model, Rainfall(v.proof.data.abiEncodedData).value);
               amount >= 0
               && var x := Signed(tee, Signing.Signable(v.id, 1, tag, DecisionCodec.Layout(v.policyId, amount, v.payoutTo)));
                  x in t.signed && AnswersScoring(t, x, k)
  {
    var v, t, k := s.evaluations[e], Process(s, tee, s.evaluations[e].id, tag, secret), |s.enclaveLog|;
    hide Process, Core, MoneyOk, RequestHash, Scoring.Validate, Scoring.Payout, DecisionCodec.Layout, DecisionCodec.Decode, Held;
    EvaluationFacts(d, s, e);
    HoldersAreFine(d, s);
    ProcessKeeps(d, s, tee, v.id, tag, secret);
    ScoringIsRecorded(d, s, e, tee, tag, secret);
    HoldersAreFine(d, t);
    assert LogOk(t) && t.enclaveLog[k].Scored?;
  }

  lemma HoldersAreFine(d: Deployment, s: World)
    requires Inv(d, s)
    ensures EnclavesOk(s) && LogOk(s)
  {
    hide MoneyOk, EnclavesOk, LogOk;
  }

  lemma EvaluationFacts(d: Deployment, s: World, e: nat)
    requires Inv(d, s) && e < |s.evaluations|
    ensures EvaluationOk(d, s, s.evaluations[e])
  {
    hide EvaluationOk, MoneyOk;
  }

  /** What one EVALUATE step adds to the history and to the signed results. */
  lemma ScoringIsRecorded(d: Deployment, s: World, e: nat, tee: Address, tag: Bytes, secret: Enclave.Opened)
    requires EnclavesOk(s) && e < |s.evaluations| && EvaluationOk(d, s, s.evaluations[e])
    requires tee in s.enclaves && s.evaluations[e].policyId in s.enclaves[tee]
    ensures var v, t := s.evaluations[e], Process(s, tee, s.evaluations[e].id, tag, secret);
            var model := s.enclaves[tee][v.policyId];
            && Scoring.Valid(model)
            && var amount: int := Scoring.Payout(model, Rainfall(v.proof.data.abiEncodedData).value);
               amount >= 0
               && t.enclaveLog == s.enclaveLog + [Scored(tee, v.id, tag, v.policyId, model)]
               && t.instructions == s.instructions
               && DecisionCodec.Decode(t.instructions[v.id].message)
                  == Ok(DecisionCodec.Tuple(v.policyId, Rainfall(v.proof.data.abiEncodedData).value, v.payoutTo))
               && Signed(tee, Signing.Signable(v.id, 1, tag, DecisionCodec.Layout(v.policyId, amount, v.payoutTo)))
                  in t.signed
  {
    hide Scoring.Payout, Scoring.Validate, DecisionCodec.Layout, DecisionCodec.Decode, RequestHash, Held;
    var v := s.evaluations[e];
    var rainfall := Rainfall(v.proof.data.abiEncodedData).value;
    RainfallIsWord(v.proof.data.abiEncodedData);
    EvaluationReads(d, s, e);
    var action := ActionFor(v.id, tag, s.instructions[v.id]);
    Enclave.EvaluationSucceeds(s.enclaves[tee], action, secret, v.policyId, rainfall, v.payoutTo);
    Scoring.PayoutBounds(s.enclaves[tee][v.policyId], rainfall);
    assert Enclave.Decide(s.enclaves[tee], action.message).Ok?;
  }

  /** An evaluation's instruction can only have been consumed by settling its own policy. */
  lemma ConsumedByItsOwnPolicy(d: Deployment, s: World, e: nat)
    requires Inv(d, s) && e < |s.evaluations| && s.evaluations[e].id in s.settlement.decisionSettled
    ensures var v := s.evaluations[e];
            Settling.IsSettled(s.settlement, v.policyId) && s.settlement.settlementOf[v.policyId].instructionId == v.id
  {
    hide MoneyOk, CustodyBy, EvaluationOk, SignedOk, ScoringOk;
    var p :| p in s.settlement.settlementOf && s.settlement.settlementOf[p].instructionId == s.evaluations[e].id;
    InvGivesCustody(d, s, p);
    var i: nat, k: nat :| CustodyBy(d, s, p, i, k);
    CustodySpelledOut(d, s, p, i, k);
    assert s.evaluations[i].id == s.evaluations[e].id;
    assert i == e;
  }

  /** From a reachable state with an accepted evaluation of an open policy, an enclave of this
      extension in production that holds a model for it and, when something is owed, a pool that can
      pay, two feasible steps (process, settle) lead to a reachable state in which the policy is settled with the
      payout of that model on that reading. */
  lemma EvaluatedPolicyCanSettle(
    d: Deployment, s: World, e: nat, tee: Address, tag: Bytes, secret: Enclave.Opened, signature: Bytes)
    returns (settled: World)
    requires Reachable(d, s) && d.chainId < UINT256_LIMIT
    requires e < |s.evaluations| && Rainfall(s.evaluations[e].proof.data.abiEncodedData).Some?
    requires tee in s.enclaves && s.evaluations[e].policyId in s.enclaves[tee]
    requires Scoring.Valid(s.enclaves[tee][s.evaluations[e].policyId])
    requires var v := s.evaluations[e];
             var amount: int := Scoring.Payout(s.enclaves[tee][v.policyId], Rainfall(v.proof.data.abiEncodedData).value);
             && amount >= 0
             && Signing.RecoverTeeId(d.keccak, d.recover, d.chainId,
                  Signing.Signable(v.id, 1, tag, DecisionCodec.Layout(v.policyId, amount, v.payoutTo)), signature) == Ok(tee)
             && (amount > 0 ==>
                   && BoundPool(d, s.settlement.executor) && s.settlement.executor != ZERO_ADDRESS
                   && v.payoutTo != ZERO_ADDRESS && amount <= BalanceOf(s.ledger.balances, s.settlement.executor))
    requires s.settlement.extensionId != 0 && tee in s.machines
    requires s.machines[tee] == Machine(s.settlement.extensionId, Production)
    requires !Settling.IsSettled(s.settlement, s.evaluations[e].policyId)
    ensures Reachable(d, settled)
    ensures var v := s.evaluations[e];
            && Settling.IsSettled(settled.settlement, v.policyId)
            && settled.settlement.settlementOf[v.policyId].amount
               == Scoring.Payout(s.enclaves[tee][v.policyId], Rainfall(v.proof.data.abiEncodedData).value)
  {
    ReachableInv(d, s);
    if s.evaluations[e].id in s.settlement.decisionSettled {
      ConsumedByItsOwnPolicy(d, s, e);
    }
    hide Inv, Exec, Signing.RecoverTeeId, Scoring.Payout, Scoring.Validate, DecisionCodec.Layout, Reachable,
         ScoringOk, AllowedCall, Rainfall, AnswersScoring;
    var v := s.evaluations[e];
    var step := ProcessInstruction(tee, v.id, tag, secret);
    var t, k := Next(d, s, step), |s.enclaveLog|;
    EvaluationGetsSigned(d, s, e, tee, tag, secret);
    ReachableStep(d, s, step);
    ProcessTouchesNothingElse(s, tee, v.id, tag, secret);
    var amount: int := Scoring.Payout(s.enclaves[tee][v.policyId], Rainfall(v.proof.data.abiEncodedData).value);
    var x := Signed(tee, Signing.Signable(v.id, 1, tag, DecisionCodec.Layout(v.policyId, amount, v.payoutTo)));
    RequestOfScoring(d, s, t, e, x, k);
    SignedDecisionSettles(d, t, x, k, signature, []);
    HonestSettleIsFeasible(d, t, x, signature);
    var a := Settling.Arguments(v.id, 1, tag, x.result.data, signature);
    ReachableStep(d, t, Transaction(Settle(a, [], true)));
    settled := Next(d, t, Transaction(Settle(a, [], true)));
  }

  lemma ProcessTouchesNothingElse(s: World, tee: Address, id: Word, tag: Bytes, secret: Enclave.Opened)
    ensures var t := Process(s, tee, id, tag, secret);
            && t.settlement == s.settlement && t.machines == s.machines && t.ledger == s.ledger
            && t.instructions == s.instructions && t.evaluations == s.evaluations
  {
    hide Enclave.Process, EventsOf;
  }

  lemma RequestOfScoring(d: Deployment, s: World, t: World, e: nat, x: Signed, k: nat)
    requires Inv(d, s) && e < |s.evaluations| && t.instructions == s.instructions
    requires k < |t.enclaveLog| && t.enclaveLog[k].Scored? && ScoringOk(t, k) && AnswersScoring(t, x, k)
    requires x.result.id == s.evaluations[e].id
    ensures var v := s.evaluations[e];
            && Rainfall(v.proof.data.abiEncodedData).Some?
            && DecisionCodec.Decode(t.instructions[x.result.id].message)
               == Ok(DecisionCodec.Tuple(v.policyId, Rainfall(v.proof.data.abiEncodedData).value, v.payoutTo))
  {
    hide ScoringOk, AnswersScoring, DecisionCodec.Decode, RequestHash;
    EvaluationFacts(d, s, e);
    EvaluationReads(d, s, e);
  }
}
