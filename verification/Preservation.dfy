/** Every step of the system keeps the invariants: calls by calls, through any nesting. */
module Preservation {
  import opened Wrappers
  import opened Bytes
  import opened Requests
  import opened Tokens
  import opened World
  import opened Invariants
  import DecisionCodec
  import Enclave
  import InstructionSending
  import Scoring
  import Settling
  import Signing

  // ---- evidence survives growth

  lemma EvaluationCarries(d: Deployment, s: World, t: World, e: Evaluation)
    requires Extends(s, t) && EvaluationOk(d, s, e)
    ensures EvaluationOk(d, t, e)
  {
    assert InstructionSending.TriggerOf(t.sender, e.policyId) == InstructionSending.TriggerOf(s.sender, e.policyId);
    assert InstructionSending.LastRoundOf(s.sender, e.policyId) <= InstructionSending.LastRoundOf(t.sender, e.policyId);
  }

  lemma ScoringCarries(s: World, t: World, k: nat)
    requires Extends(s, t) && k < |s.enclaveLog| && s.enclaveLog[k].Scored? && ScoringOk(s, k)
    ensures t.enclaveLog[k] == s.enclaveLog[k] && ScoringOk(t, k)
  {
    assert t.enclaveLog[..k] == s.enclaveLog[..k];
  }

  lemma SignedCarries(s: World, t: World, x: Signed)
    requires Extends(s, t) && SignedOk(s, x)
    ensures SignedOk(t, x)
  {
    if x.result.status == 1 && |x.result.data| == DecisionCodec.TUPLE_SIZE {
      var k :| 0 <= k < |s.enclaveLog| && s.enclaveLog[k].Scored? && ScoringOk(s, k) && AnswersScoring(s, x, k);
      ScoringCarries(s, t, k);
      assert AnswersScoring(t, x, k);
    }
  }

  lemma CustodyCarries(d: Deployment, s: World, t: World, p: Word)
    requires Extends(s, t) && p in s.settlement.settlementOf && Custody(d, s, p)
    ensures p in t.settlement.settlementOf && Custody(d, t, p)
  {
    hide EvaluationOk, ScoringOk, Scoring.Payout, Rainfall;
    var e: nat, k: nat :| CustodyBy(d, s, p, e, k);
    EvaluationCarries(d, s, t, s.evaluations[e]);
    ScoringCarries(s, t, k);
    assert CustodyBy(d, t, p, e, k);
  }

  /** All evidence at once. */
  lemma EvidenceCarries(d: Deployment, s: World, t: World)
    requires Extends(s, t)
    ensures forall e :: EvaluationOk(d, s, e) ==> EvaluationOk(d, t, e)
    ensures LogOk(s) ==> forall k :: 0 <= k < |s.enclaveLog| && s.enclaveLog[k].Scored? ==>
              t.enclaveLog[k] == s.enclaveLog[k] && ScoringOk(t, k)
    ensures LoadsOk(s) ==> forall k :: 0 <= k < |s.enclaveLog| && s.enclaveLog[k].Loaded? ==>
              t.enclaveLog[k] == s.enclaveLog[k] && LoadOk(t, k)
    ensures AllSignedOk(s) ==> forall x :: x in s.signed ==> SignedOk(t, x)
    ensures AllInCustody(d, s) ==> forall p :: p in s.settlement.settlementOf ==>
              p in t.settlement.settlementOf && Custody(d, t, p)
  {
    forall e | EvaluationOk(d, s, e) ensures EvaluationOk(d, t, e) { EvaluationCarries(d, s, t, e); }
    if LogOk(s) {
      forall k | 0 <= k < |s.enclaveLog| && s.enclaveLog[k].Scored?
        ensures t.enclaveLog[k] == s.enclaveLog[k] && ScoringOk(t, k)
      {
        ScoringCarries(s, t, k);
      }
    }
    if AllSignedOk(s) {
      forall x | x in s.signed ensures SignedOk(t, x) { SignedCarries(s, t, x); }
    }
    if AllInCustody(d, s) {
      forall p | p in s.settlement.settlementOf ensures p in t.settlement.settlementOf && Custody(d, t, p) {
        CustodyCarries(d, s, t, p);
      }
    }
  }

  // ---- calls that neither evaluate nor settle

  lemma QuietKeepsCore(d: Deployment, s: World, t: World)
    requires Core(d, s) && Extends(s, t) && SameOffChain(s, t) && SameRegistries(s, t)
    requires t.evaluations == s.evaluations && t.payouts == s.payouts
    requires t.settlement.settlementOf == s.settlement.settlementOf
    requires t.settlement.decisionSettled == s.settlement.decisionSettled
    requires t.settlement.executor == ZERO_ADDRESS || t.settlement.executor in t.executors
    requires ScansOk(d, t)
    requires forall id :: id in t.instructions ==> id in s.instructions || t.instructions[id].command == Enclave.RegisterModel
    ensures Core(d, t)
  {
    hide EvaluationOk, ScoringOk, LoadOk, SignedOk, Custody;
    EvidenceCarries(d, s, t);
    assert EvaluationsOk(d, t) by {
      forall id | id in t.instructions && t.instructions[id].command == Enclave.Evaluate
        ensures exists k :: 0 <= k < |t.evaluations| && t.evaluations[k].id == id
      {
        assert id in s.instructions && s.instructions[id].command == Enclave.Evaluate;
      }
    }
  }

  // ---- evaluate

  lemma EvaluateKeepsCore(d: Deployment, s: World, policyId: Word, payoutTo: Address, proof: Proof, newId: Word, accepted: bool)
    requires Core(d, s)
    ensures var t := Exec(d, s, Evaluate(policyId, payoutTo, proof, newId, accepted)).0;
            Core(d, t) && Extends(s, t)
  {
    var t := Exec(d, s, Evaluate(policyId, payoutTo, proof, newId, accepted)).0;
    if t != s {
      var e := Evaluation(newId, policyId, payoutTo, proof);
      assert t.evaluations == s.evaluations + [e];
      assert Extends(s, t);
      NewEvaluationIsOk(d, s, t, e);
      EvidenceCarries(d, s, t);
      EvaluationsStayOk(d, s, t, e);
      StaysInOrder(d, s, t);
    }
  }

  lemma NewEvaluationIsOk(d: Deployment, s: World, t: World, e: Evaluation)
    requires t == Exec(d, s, Evaluate(e.policyId, e.payoutTo, e.proof, e.id, true)).0 && t.evaluations == s.evaluations + [e]
    ensures EvaluationOk(d, t, e)
    ensures e.proof.data.votingRound > InstructionSending.LastRoundOf(s.sender, e.policyId)
    ensures e.id !in s.instructions
  {
  }

  lemma EvaluationsStayOk(d: Deployment, s: World, t: World, e: Evaluation)
    requires EvaluationsOk(d, s) && Extends(s, t) && t.evaluations == s.evaluations + [e]
    requires EvaluationOk(d, t, e) && e.id !in s.instructions
    requires e.proof.data.votingRound > InstructionSending.LastRoundOf(s.sender, e.policyId)
    requires t.instructions == s.instructions[e.id := Instruction(Enclave.Evaluate,
               DecisionCodec.Layout(e.policyId, Rainfall(e.proof.data.abiEncodedData).value, e.payoutTo))]
    ensures EvaluationsOk(d, t)
  {
    hide EvaluationOk, EvaluationsForward, InstructionsBacked;
    RoundsStayForward(d, s, t, e);
    forall k | 0 <= k < |t.evaluations| ensures EvaluationOk(d, t, t.evaluations[k]) {
      if k < |s.evaluations| {
        EvaluationCarries(d, s, t, s.evaluations[k]);
      }
    }
    StillBacked(s.instructions, s.evaluations, e, t.instructions[e.id]);
  }

  lemma StillBacked(instructions: map<Word, Instruction>, evaluations: seq<Evaluation>, e: Evaluation, i: Instruction)
    requires InstructionsBacked(instructions, evaluations) && i.command == Enclave.Evaluate
    ensures InstructionsBacked(instructions[e.id := i], evaluations + [e])
  {
    var after, all := instructions[e.id := i], evaluations + [e];
    forall id | id in after && after[id].command == Enclave.Evaluate
      ensures exists k :: 0 <= k < |all| && all[k].id == id
    {
      if id == e.id {
        assert all[|evaluations|].id == id;
      } else {
        var k :| 0 <= k < |evaluations| && evaluations[k].id == id;
        assert all[k].id == id;
      }
    }
  }

  lemma RoundsStayForward(d: Deployment, s: World, t: World, e: Evaluation)
    requires AllEvaluationsOk(d, s) && EvaluationsForward(s.evaluations) && t.evaluations == s.evaluations + [e]
    requires e.proof.data.votingRound > InstructionSending.LastRoundOf(s.sender, e.policyId) && e.id !in s.instructions
    ensures EvaluationsForward(t.evaluations)
  {
    hide RequestHash, InstructionSending.LastRoundOf, InstructionSending.TriggerOf;
    forall j, k | 0 <= j < k < |t.evaluations|
      ensures t.evaluations[j].id != t.evaluations[k].id
      ensures t.evaluations[j].policyId == t.evaluations[k].policyId ==>
                t.evaluations[j].proof.data.votingRound < t.evaluations[k].proof.data.votingRound
    {
      assert EvaluationOk(d, s, s.evaluations[j]);
    }
  }

  /** With evaluations dealt with, a call that leaves settlement alone keeps the rest. */
  lemma StaysInOrder(d: Deployment, s: World, t: World)
    requires Core(d, s) && Extends(s, t) && SameOffChain(s, t) && SameRegistries(s, t) && EvaluationsOk(d, t)
    requires t.settlement == s.settlement && t.payouts == s.payouts && t.executors == s.executors
    requires t.sender.extensionId == s.sender.extensionId
    ensures Core(d, t)
  {
    hide EvaluationOk, ScoringOk, LoadOk, SignedOk, Custody, EvaluationsOk;
    EvidenceCarries(d, s, t);
  }

  // ---- settle

  /** The decision settle is about to record was signed by an enclave of this extension, which
      scored an accepted evaluation of that policy with the model it held. */
  lemma AcceptedDecisionIsScored(d: Deployment, s: World, a: Settling.Arguments) returns (e: nat, k: nat)
    requires Core(d, s) && d.chainId < UINT256_LIMIT
    requires Unforged(d, s.enclaves.Keys, s.signed, a)
    requires Settling.Check(s.settlement, ContextOf(d, s), a).Ok?
    ensures e < |s.evaluations| && k < |s.enclaveLog| && s.enclaveLog[k].Scored? && ScoringOk(s, k)
    ensures EvaluationOk(d, s, s.evaluations[e])
    ensures var decision, evaluation, scoring :=
              Settling.Check(s.settlement, ContextOf(d, s), a).value, s.evaluations[e], s.enclaveLog[k];
            && evaluation.id == scoring.id == a.id && scoring.tag == a.tag
            && Signing.RecoverTeeId(d.keccak, d.recover, d.chainId, Settling.SignableOf(a), a.signature) == Ok(scoring.tee)
            && evaluation.policyId == scoring.policyId == decision.policyId
            && decision.value == Scoring.Payout(scoring.model, Rainfall(evaluation.proof.data.abiEncodedData).value)
            && decision.payoutTo == evaluation.payoutTo
  {
    hide EvaluationOk, AnswersScoring, Settling.Check, Signing.RecoverTeeId, Unforged, MachinesAttested;
    var x := SignerSignedIt(d, s, a);
    k := SignedDecisionIsScored(s, x);
    e :| 0 <= e < |s.evaluations| && s.evaluations[e].id == a.id;
    ScoringMatchesEvaluation(d, s, x, e, k);
    ScoringMatchesTag(s, x, k);
  }

  lemma SignedDecisionIsScored(s: World, x: Signed) returns (k: nat)
    requires SignedOk(s, x) && x.result.status == 1 && |x.result.data| == DecisionCodec.TUPLE_SIZE
    ensures k < |s.enclaveLog| && s.enclaveLog[k].Scored? && ScoringOk(s, k) && AnswersScoring(s, x, k)
    ensures s.enclaveLog[k].id in s.instructions && s.instructions[s.enclaveLog[k].id].command == Enclave.Evaluate
    ensures s.enclaveLog[k].id == x.result.id
  {
    k :| 0 <= k < |s.enclaveLog| && s.enclaveLog[k].Scored? && ScoringOk(s, k) && AnswersScoring(s, x, k);
  }

  lemma ScoringMatchesTag(s: World, x: Signed, k: nat)
    requires k < |s.enclaveLog| && s.enclaveLog[k].Scored? && ScoringOk(s, k) && AnswersScoring(s, x, k)
    ensures s.enclaveLog[k].id == x.result.id && s.enclaveLog[k].tag == x.result.tag && s.enclaveLog[k].tee == x.tee
  {
  }

  /** An accepted settle presents exactly a result that an enclave of this extension signed. */
  lemma SignerSignedIt(d: Deployment, s: World, a: Settling.Arguments) returns (x: Signed)
    requires ScansOk(d, s) && MachinesAttested(d, s) && AllSignedOk(s) && d.chainId < UINT256_LIMIT
    requires Unforged(d, s.enclaves.Keys, s.signed, a)
    requires Settling.Check(s.settlement, ContextOf(d, s), a).Ok?
    ensures x in s.signed && SignedOk(s, x) && x.result == Settling.SignableOf(a)
    ensures Signing.RecoverTeeId(d.keccak, d.recover, d.chainId, Settling.SignableOf(a), a.signature) == Ok(x.tee)
    ensures x.result.status == 1 && |x.result.data| == DecisionCodec.TUPLE_SIZE
    ensures DecisionCodec.AbiDecode(x.result.data) == Ok(Settling.Check(s.settlement, ContextOf(d, s), a).value)
  {
    hide Signing.RecoverTeeId, Signing.Digest, Signing.SigningCollision, SignedOk;
    var presented := Settling.SignableOf(a);
    var tee := Signing.RecoverTeeId(d.keccak, d.recover, d.chainId, presented, a.signature).value;
    assert tee in s.machines && RunsOurs(d, s, tee);
    x :| x in s.signed && x.tee == tee
      && Signing.Digest(d.keccak, d.chainId, x.result) == Signing.Digest(d.keccak, d.chainId, presented)
      && !Signing.SigningCollision(d.keccak, d.chainId, x.result, d.chainId, presented);
    Signing.DigestIsInjective(d.keccak, d.chainId, x.result, d.chainId, presented);
  }

  lemma ScoringMatchesEvaluation(d: Deployment, s: World, x: Signed, e: nat, k: nat)
    requires k < |s.enclaveLog| && s.enclaveLog[k].Scored? && ScoringOk(s, k) && AnswersScoring(s, x, k)
    requires e < |s.evaluations| && s.evaluations[e].id == x.result.id && EvaluationOk(d, s, s.evaluations[e])
    ensures var evaluation, scoring := s.evaluations[e], s.enclaveLog[k];
            var payout := Scoring.Payout(scoring.model, Rainfall(evaluation.proof.data.abiEncodedData).value);
            && evaluation.policyId == scoring.policyId
            && |x.result.data| == DecisionCodec.TUPLE_SIZE
            && 0 <= payout
            && DecisionCodec.AbiDecode(x.result.data)
               == Ok(DecisionCodec.Tuple(scoring.policyId, payout, evaluation.payoutTo))
  {
    var evaluation, scoring := s.evaluations[e], s.enclaveLog[k];
    var rainfall := Rainfall(evaluation.proof.data.abiEncodedData).value;
    RainfallIsWord(evaluation.proof.data.abiEncodedData);
    DecisionCodec.EncodedTupleReadsBackEverywhere(evaluation.policyId, rainfall, evaluation.payoutTo);
    Scoring.PayoutBounds(scoring.model, rainfall);
    DecisionCodec.EncodedTupleReadsBackEverywhere(
      scoring.policyId, Scoring.Payout(scoring.model, rainfall), evaluation.payoutTo);
  }

  /** Writing the record keeps the ledger one to one. */
  lemma RecordKeepsOneToOne(st: Settling.Storage, id: Word, decision: DecisionCodec.Tuple)
    requires OneToOne(st) && id !in st.decisionSettled && !Settling.IsSettled(st, decision.policyId)
    ensures decision.policyId !in st.settlementOf
    ensures var t := Settling.Record(st, id, decision);
            OneToOne(t) && SettlementGrows(st, t)
  {
    var t := Settling.Record(st, id, decision);
    forall i | i in t.decisionSettled
      ensures exists p :: p in t.settlementOf && t.settlementOf[p].instructionId == i
    {
      if i == id {
        assert t.settlementOf[decision.policyId].instructionId == i;
      } else {
        var p :| p in st.settlementOf && st.settlementOf[p].instructionId == i;
        assert p in t.settlementOf && t.settlementOf[p].instructionId == i;
      }
    }
  }

  /** A record without a payout, or one with its payout call, keeps payments exact. */
  lemma RecordKeepsPaidOnce(st: Settling.Storage, executors: set<Address>, payouts: seq<PayoutCall>,
                            id: Word, decision: DecisionCodec.Tuple, executor: Address)
    requires PaidOnce(st, executors, payouts) && decision.policyId !in st.settlementOf
    requires decision.value > 0 ==> executor in executors
    ensures var t := Settling.Record(st, id, decision);
            var after := if decision.value == 0 then payouts
                         else payouts + [PayoutCall(executor, decision.policyId, decision.payoutTo, decision.value)];
            PaidOnce(t, executors, after)
  {
    var t := Settling.Record(st, id, decision);
    var after := if decision.value == 0 then payouts
                 else payouts + [PayoutCall(executor, decision.policyId, decision.payoutTo, decision.value)];
    forall k | 0 <= k < |after| ensures PaidFor(t, executors, after[k]) {
      if k < |payouts| {
        assert PaidFor(st, executors, payouts[k]);
      }
    }
    forall j, k | 0 <= j < k < |after| ensures after[j].policyId != after[k].policyId {
      assert PaidFor(st, executors, payouts[j]);
    }
    forall p | p in t.settlementOf && t.settlementOf[p].amount > 0
      ensures exists k :: 0 <= k < |after| && after[k].policyId == p
    {
      if p == decision.policyId {
        assert after[|payouts|].policyId == p;
      } else {
        var k :| 0 <= k < |payouts| && payouts[k].policyId == p;
        assert after[k].policyId == p;
      }
    }
  }

  /** What the record changes and what it leaves. */
  lemma RecordGrows(s: World, t: World, id: Word, decision: DecisionCodec.Tuple)
    requires OneToOne(s.settlement) && id !in s.settlement.decisionSettled
    requires !Settling.IsSettled(s.settlement, decision.policyId)
    requires t == Recorded(s, id, decision) || t == Calling(s, id, decision)
    ensures Extends(s, t) && SameOffChain(s, t) && SameRegistries(s, t) && OneToOne(t.settlement)
    ensures t.settlement.settlementOf.Keys == s.settlement.settlementOf.Keys + {decision.policyId}
  {
    hide OneToOne;
    RecordKeepsOneToOne(s.settlement, id, decision);
  }

  /** The state in which the executor is called, and the final one when nothing is owed,
      satisfies everything except the money that is about to move. */
  lemma RecordKeepsCore(d: Deployment, s: World, a: Settling.Arguments, decision: DecisionCodec.Tuple, t: World)
    requires Core(d, s) && d.chainId < UINT256_LIMIT
    requires Unforged(d, s.enclaves.Keys, s.signed, a)
    requires Settling.Check(s.settlement, ContextOf(d, s), a) == Ok(decision)
    requires decision.value == 0 ==> t == Recorded(s, a.id, decision)
    requires decision.value > 0 ==> s.settlement.executor != ZERO_ADDRESS && t == Calling(s, a.id, decision)
    ensures Core(d, t) && Extends(s, t) && SameOffChain(s, t) && SameRegistries(s, t)
  {
    CheckedIsNew(s.settlement, ContextOf(d, s), a);
    hide EvaluationOk, ScoringOk, LoadOk, SignedOk, Custody, Settling.Check, OneToOne, PaidOnce, EvaluationsOk, EnclavesOk,
      LogOk, LoadsOk, AllSignedOk, AllInCustody, ScansOk, MachinesAttested, Unforged, Extends;
    RecordKeepsOneToOne(s.settlement, a.id, decision);
    RecordKeepsPaidOnce(s.settlement, s.executors, s.payouts, a.id, decision, s.settlement.executor);
    RecordGrows(s, t, a.id, decision);
    NewRecordInCustody(d, s, t, a);
    RecordAssembles(d, s, t, decision.policyId);
  }

  lemma CheckedIsNew(st: Settling.Storage, c: Settling.Context, a: Settling.Arguments)
    requires Settling.Check(st, c, a).Ok?
    ensures a.id !in st.decisionSettled && !Settling.IsSettled(st, Settling.Check(st, c, a).value.policyId)
  {
  }

  lemma NewRecordInCustody(d: Deployment, s: World, t: World, a: Settling.Arguments)
    requires Core(d, s) && d.chainId < UINT256_LIMIT && Extends(s, t)
    requires Unforged(d, s.enclaves.Keys, s.signed, a)
    requires Settling.Check(s.settlement, ContextOf(d, s), a).Ok?
    requires var decision := Settling.Check(s.settlement, ContextOf(d, s), a).value;
             t.settlement == Settling.Record(s.settlement, a.id, decision)
    ensures Custody(d, t, Settling.Check(s.settlement, ContextOf(d, s), a).value.policyId)
  {
    hide EvaluationOk, ScoringOk, Settling.Check;
    var e, k := AcceptedDecisionIsScored(d, s, a);
    EvaluationCarries(d, s, t, s.evaluations[e]);
    ScoringCarries(s, t, k);
    assert CustodyBy(d, t, Settling.Check(s.settlement, ContextOf(d, s), a).value.policyId, e, k);
  }

  lemma RecordAssembles(d: Deployment, s: World, t: World, p: Word)
    requires Core(d, s) && Extends(s, t) && SameOffChain(s, t) && SameRegistries(s, t)
    requires t.evaluations == s.evaluations && t.instructions == s.instructions && t.sender == s.sender
    requires t.settlement.executor == s.settlement.executor && t.executors == s.executors
    requires t.settlement.extensionId == s.settlement.extensionId
    requires OneToOne(t.settlement) && PaidOnce(t.settlement, t.executors, t.payouts)
    requires t.settlement.settlementOf.Keys == s.settlement.settlementOf.Keys + {p} && Custody(d, t, p)
    ensures Core(d, t)
  {
    hide EvaluationOk, ScoringOk, LoadOk, SignedOk, Custody, OneToOne, PaidOnce, Extends, InstructionsBacked, EvaluationsForward;
    EvidenceCarries(d, s, t);
  }
}
