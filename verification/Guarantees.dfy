/** What the system promises, over every run from deployment: any steps by anyone, any nesting
    of calls inside unknown executors, any number of enclave restarts and executor swaps. */
module Guarantees {
  import opened Wrappers
  import opened Bytes
  import opened Requests
  import opened Registries
  import opened Tokens
  import opened World
  import opened Invariants
  import opened Preservation
  import opened Reachability
  import DecisionCodec
  import Enclave
  import InstructionSending
  import Scoring
  import Settling
  import Signing

  /** A world that some run from deployment leads to. */
  ghost predicate Reachable(d: Deployment, s: World) {
    exists steps :: FeasibleRun(d, Genesis(d), steps) && s == Run(d, Genesis(d), steps)
  }

  lemma ReachableInv(d: Deployment, s: World)
    requires Reachable(d, s)
    ensures Inv(d, s)
  {
    hide Inv, FeasibleRun;
    var steps :| FeasibleRun(d, Genesis(d), steps) && s == Run(d, Genesis(d), steps);
    ReachableIsFine(d, steps);
  }

  // ---- chain of custody

  /** Behind every settled policy stand an accepted evaluation and a scoring: the evaluation
      carried a verified proof of the one request the policy was bound to, the scoring used the
      model last loaded for it into an enclave of this extension since that enclave started,
      and the record is what that model pays on that reading, to that evaluation's recipient. */
  lemma ChainOfCustody(d: Deployment, s: World, p: Word) returns (evaluation: Evaluation, k: nat)
    requires Reachable(d, s) && Settling.IsSettled(s.settlement, p)
    ensures evaluation in s.evaluations && k < |s.enclaveLog| && s.enclaveLog[k].Scored?
    ensures var record, scoring := s.settlement.settlementOf[p], s.enclaveLog[k];
            var held := Held(s.enclaveLog[..k], scoring.tee);
            var reading := Rainfall(evaluation.proof.data.abiEncodedData);
            && evaluation.policyId == scoring.policyId == p
            && evaluation.id == scoring.id == record.instructionId
            && evaluation.proof in s.verifiable
            && RequestHash(d.keccak, evaluation.proof.data.requestBody) == InstructionSending.TriggerOf(s.sender, p) != ZERO_WORD
            && scoring.tee in s.enclaves && p in held && held[p] == scoring.model
            && Scoring.Score(scoring.model, reading) == Ok(record.amount)
            && record.payoutTo == (if record.amount > 0 then evaluation.payoutTo else ZERO_ADDRESS)
  {
    ReachableInv(d, s);
    hide Inv, RequestHash, CustodyBy, ScoringOk, EvaluationOk;
    InvGivesCustody(d, s, p);
    var e: nat, i: nat :| CustodyBy(d, s, p, e, i);
    CustodySpelledOut(d, s, p, e, i);
    k := i;
    evaluation := s.evaluations[e];
  }

  lemma CustodySpelledOut(d: Deployment, s: World, p: Word, e: nat, k: nat)
    requires p in s.settlement.settlementOf && CustodyBy(d, s, p, e, k)
    ensures e < |s.evaluations| && k < |s.enclaveLog| && s.enclaveLog[k].Scored?
    ensures var record, scoring, evaluation := s.settlement.settlementOf[p], s.enclaveLog[k], s.evaluations[e];
            var held := Held(s.enclaveLog[..k], scoring.tee);
            var reading := Rainfall(evaluation.proof.data.abiEncodedData);
            && evaluation.policyId == scoring.policyId == p
            && evaluation.id == scoring.id == record.instructionId
            && evaluation.proof in s.verifiable
            && RequestHash(d.keccak, evaluation.proof.data.requestBody) == InstructionSending.TriggerOf(s.sender, p) != ZERO_WORD
            && scoring.tee in s.enclaves && p in held && held[p] == scoring.model
            && Scoring.Score(scoring.model, reading) == Ok(record.amount)
            && record.payoutTo == (if record.amount > 0 then evaluation.payoutTo else ZERO_ADDRESS)
  {
  }

  lemma InvGivesCustody(d: Deployment, s: World, p: Word)
    requires Inv(d, s) && p in s.settlement.settlementOf
    ensures Custody(d, s, p)
  {
    hide Custody;
  }

  /** No result other than an EVALUATE success can settle: the signature that passes every check is
      that of the enclave which scored the accepted evaluation, and the data it covers is exactly
      that score and that evaluation's recipient. */
  lemma OnlyScoredDecisionsSettle(d: Deployment, s: World, a: Settling.Arguments, decision: DecisionCodec.Tuple)
    returns (evaluation: Evaluation, k: nat)
    requires Reachable(d, s) && d.chainId < UINT256_LIMIT
    requires Unforged(d, s.enclaves.Keys, s.signed, a)
    requires Settling.Check(s.settlement, ContextOf(d, s), a) == Ok(decision)
    ensures evaluation in s.evaluations && k < |s.enclaveLog| && s.enclaveLog[k].Scored?
    ensures var scoring, reading := s.enclaveLog[k], Rainfall(evaluation.proof.data.abiEncodedData);
            && evaluation.id == scoring.id == a.id && scoring.tag == a.tag
            && scoring.id in s.instructions && s.instructions[scoring.id].command == Enclave.Evaluate
            && Signing.RecoverTeeId(d.keccak, d.recover, d.chainId, Settling.SignableOf(a), a.signature) == Ok(scoring.tee)
            && evaluation.policyId == scoring.policyId == decision.policyId
            && Scoring.Score(scoring.model, reading) == Ok(decision.value)
            && decision.payoutTo == evaluation.payoutTo
            && decision.value < UINT256_LIMIT
            && a.data == DecisionCodec.Layout(scoring.policyId, decision.value, evaluation.payoutTo)
  {
    ReachableInv(d, s);
    Settling.CheckAcceptsIff(s.settlement, ContextOf(d, s), a, decision);
    hide MoneyOk, Settling.Check, EvaluationOk, Signing.RecoverTeeId, Scoring.Payout, DecisionCodec.Layout;
    var e, i := AcceptedDecisionIsScored(d, s, a);
    EvaluationHasReading(d, s, e);
    k := i;
    evaluation := s.evaluations[e];
  }

  lemma EvaluationHasReading(d: Deployment, s: World, e: nat)
    requires e < |s.evaluations| && EvaluationOk(d, s, s.evaluations[e])
    ensures Rainfall(s.evaluations[e].proof.data.abiEncodedData).Some?
  {
  }

  // ---- exactly one payment

  function PaymentsFor(payouts: seq<PayoutCall>, p: Word): seq<PayoutCall> {
    if payouts == [] then []
    else
      PaymentsFor(payouts[..|payouts| - 1], p)
        + if payouts[|payouts| - 1].policyId == p then [payouts[|payouts| - 1]] else []
  }

  lemma {:induction false} NoPayments(payouts: seq<PayoutCall>, p: Word)
    requires forall k :: 0 <= k < |payouts| ==> payouts[k].policyId != p
    ensures PaymentsFor(payouts, p) == []
  {
    if payouts != [] {
      NoPayments(payouts[..|payouts| - 1], p);
    }
  }

  lemma {:induction false} OnePayment(payouts: seq<PayoutCall>, p: Word, k: nat)
    requires k < |payouts| && payouts[k].policyId == p
    requires forall i, j :: 0 <= i < j < |payouts| ==> payouts[i].policyId != payouts[j].policyId
    ensures PaymentsFor(payouts, p) == [payouts[k]]
  {
    var front := payouts[..|payouts| - 1];
    if k == |payouts| - 1 {
      NoPayments(front, p);
    } else {
      OnePayment(front, p, k);
      assert payouts[|payouts| - 1].policyId != p;
    }
  }

  /** The payout calls that were made for a policy and not reverted: none before it is settled
      or when nothing was owed, and otherwise exactly one, of the recorded amount to the recorded
      recipient, however calls were nested. */
  lemma ExactlyOnePayment(d: Deployment, s: World, p: Word)
    requires Reachable(d, s)
    ensures var payments := PaymentsFor(s.payouts, p);
            if p in s.settlement.settlementOf && s.settlement.settlementOf[p].amount > 0 then
              |payments| == 1
              && payments[0].amount == s.settlement.settlementOf[p].amount
              && payments[0].payoutTo == s.settlement.settlementOf[p].payoutTo
            else payments == []
  {
    ReachableInv(d, s);
    PaymentsAreExact(s.settlement, s.executors, s.payouts, p);
  }

  lemma PaymentsAreExact(st: Settling.Storage, executors: set<Address>, payouts: seq<PayoutCall>, p: Word)
    requires PaidOnce(st, executors, payouts)
    ensures var payments := PaymentsFor(payouts, p);
            if p in st.settlementOf && st.settlementOf[p].amount > 0 then
              |payments| == 1
              && payments[0].amount == st.settlementOf[p].amount && payments[0].payoutTo == st.settlementOf[p].payoutTo
            else payments == []
  {
    if p in st.settlementOf && st.settlementOf[p].amount > 0 {
      var k :| 0 <= k < |payouts| && payouts[k].policyId == p;
      OnePayment(payouts, p, k);
      assert PaidFor(st, executors, payouts[k]);
    } else {
      forall k | 0 <= k < |payouts| ensures payouts[k].policyId != p {
        assert PaidFor(st, executors, payouts[k]);
      }
      NoPayments(payouts, p);
    }
  }

  /** Whatever an unknown executor does while it is being called, neither the policy nor the
      instruction being settled can be settled again from inside, or by anyone afterwards. */
  lemma ReentryCannotSettleAgain(
    d: Deployment, s: World, a: Settling.Arguments, decision: DecisionCodec.Tuple, inner: seq<Call>, again: Settling.Arguments)
    requires Inv(d, s) && d.chainId < UINT256_LIMIT
    requires Unforged(d, s.enclaves.Keys, s.signed, a) && AllowedCalls(d, Calling(s, a.id, decision), inner)
    requires Settling.Check(s.settlement, ContextOf(d, s), a) == Ok(decision) && decision.value > 0
    requires s.settlement.executor != ZERO_ADDRESS && s.settlement.executor !in d.pools
    ensures var during := ExecAll(d, Calling(s, a.id, decision), inner);
            var checked := Settling.Check(during.settlement, ContextOf(d, during), again);
            checked.Ok? ==> checked.value.policyId != decision.policyId && again.id != a.id
  {
    hide Core, MoneyOk, Settling.Check, Unforged, AllowedCalls;
    var calling := Calling(s, a.id, decision);
    RecordKeepsCore(d, s, a, decision, calling);
    ForeignPayoutKeepsMoney(d, s, calling,
                            PayoutCall(s.settlement.executor, decision.policyId, decision.payoutTo, decision.value));
    ExecAllKeeps(d, calling, inner);
    var during := ExecAll(d, calling, inner);
    if Settling.Check(during.settlement, ContextOf(d, during), again).Ok? {
      CheckedIsNew(during.settlement, ContextOf(d, during), again);
    }
  }

  // ---- one to one, and forever

  /** An instruction is consumed exactly when one settled policy records it, and only one does. */
  lemma SettledAndConsumedCorrespond(d: Deployment, s: World, i: Word)
    requires Reachable(d, s)
    ensures i in s.settlement.decisionSettled <==>
              exists p :: Settling.IsSettled(s.settlement, p) && s.settlement.settlementOf[p].instructionId == i
    ensures forall p, q :: (Settling.IsSettled(s.settlement, p) && Settling.IsSettled(s.settlement, q)
              && s.settlement.settlementOf[p].instructionId == i == s.settlement.settlementOf[q].instructionId) ==> p == q
  {
    ReachableInv(d, s);
    hide MoneyOk, AllInCustody, EvaluationsOk, EnclavesOk, LogOk, LoadsOk, AllSignedOk, PaidOnce;
    if i in s.settlement.decisionSettled {
      var p :| p in s.settlement.settlementOf && s.settlement.settlementOf[p].instructionId == i;
      assert Settling.IsSettled(s.settlement, p);
    }
  }

  /** Whatever happens after a reachable state, executor swaps included, its settlements stand
      unchanged, consumed instructions stay consumed, bound triggers keep their hash, issued
      instructions keep their content and the cached extension ids stay. */
  lemma NothingIsUndone(d: Deployment, s: World, later: seq<Step>)
    requires Reachable(d, s) && FeasibleRun(d, s, later)
    ensures var t := Run(d, s, later);
            && (forall p :: Settling.IsSettled(s.settlement, p) ==>
                  Settling.IsSettled(t.settlement, p) && t.settlement.settlementOf[p] == s.settlement.settlementOf[p])
            && s.settlement.decisionSettled <= t.settlement.decisionSettled
            && (forall p :: InstructionSending.TriggerOf(s.sender, p) != ZERO_WORD ==>
                  InstructionSending.TriggerOf(t.sender, p) == InstructionSending.TriggerOf(s.sender, p))
            && (forall id :: id in s.instructions ==> id in t.instructions && t.instructions[id] == s.instructions[id])
            && (s.settlement.extensionId != 0 ==> t.settlement.extensionId == s.settlement.extensionId)
            && (s.sender.extensionId != 0 ==> t.sender.extensionId == s.sender.extensionId)
            && s.payouts <= t.payouts && s.evaluations <= t.evaluations
  {
    ReachableInv(d, s);
    RunKeeps(d, s, later);
  }

  /** Accepted evaluations of one policy move strictly forward in voting rounds and all prove
      the one request its trigger was bound to. */
  lemma EvaluationsMoveForward(d: Deployment, s: World, j: nat, k: nat)
    requires Reachable(d, s) && j < k < |s.evaluations|
    requires s.evaluations[j].policyId == s.evaluations[k].policyId
    ensures s.evaluations[j].proof.data.votingRound < s.evaluations[k].proof.data.votingRound
    ensures RequestHash(d.keccak, s.evaluations[j].proof.data.requestBody)
            == RequestHash(d.keccak, s.evaluations[k].proof.data.requestBody)
            == InstructionSending.TriggerOf(s.sender, s.evaluations[j].policyId)
    ensures s.evaluations[j].id != s.evaluations[k].id
  {
    ReachableInv(d, s);
    hide MoneyOk, RequestHash;
    assert EvaluationOk(d, s, s.evaluations[j]) && EvaluationOk(d, s, s.evaluations[k]);
  }

  /** Once both contracts have found their extension id it is the same one. */
  lemma ExtensionIdsAgree(d: Deployment, s: World)
    requires Reachable(d, s) && s.sender.extensionId != 0 && s.settlement.extensionId != 0
    ensures s.sender.extensionId == s.settlement.extensionId >= FIRST_PUBLIC_EXTENSION_ID
  {
    ReachableInv(d, s);
    hide MoneyOk, AllInCustody, EvaluationsOk, EnclavesOk, LogOk, LoadsOk, AllSignedOk, PaidOnce, OneToOne, FindFrom;
    FoundIsFirst(s.extensions, d.sender, 0);
  }

  // ---- conservation

  function TotalOf(payouts: seq<PayoutCall>): nat {
    if payouts == [] then 0 else TotalOf(payouts[..|payouts| - 1]) + payouts[|payouts| - 1].amount
  }

  ghost function TotalSettled(settlementOf: map<Word, Settling.Settlement>): nat
    decreases |settlementOf|
  {
    if settlementOf == map[] then 0
    else
      var p :| p in settlementOf;
      TotalSettled(settlementOf - {p}) + settlementOf[p].amount
  }

  /** Any settled policy may be counted first. */
  lemma {:induction false} CountFirst(m: map<Word, Settling.Settlement>, p: Word)
    requires p in m
    ensures TotalSettled(m) == TotalSettled(m - {p}) + m[p].amount
    decreases |m|
  {
    var q :| q in m && TotalSettled(m) == TotalSettled(m - {q}) + m[q].amount;
    if q != p {
      CountFirst(m - {q}, p);
      CountFirst(m - {p}, q);
      assert m - {p} - {q} == m - {q} - {p};
    }
  }

  /** Removing a policy that was settled without a payout changes no total. */
  lemma {:induction false} TotalsAgree(st: Settling.Storage, executors: set<Address>, payouts: seq<PayoutCall>)
    requires PaidOnce(st, executors, payouts)
    ensures TotalOf(payouts) == TotalSettled(st.settlementOf)
    decreases |payouts|, |st.settlementOf|
  {
    if payouts != [] {
      var front, last := payouts[..|payouts| - 1], payouts[|payouts| - 1];
      assert PaidFor(st, executors, last);
      var less := st.(settlementOf := st.settlementOf - {last.policyId});
      WithoutLast(st, executors, payouts);
      TotalsAgree(less, executors, front);
      CountFirst(st.settlementOf, last.policyId);
    } else if st.settlementOf != map[] {
      var p :| p in st.settlementOf;
      CountFirst(st.settlementOf, p);
      TotalsAgree(st.(settlementOf := st.settlementOf - {p}), executors, payouts);
    }
  }

  lemma WithoutLast(st: Settling.Storage, executors: set<Address>, payouts: seq<PayoutCall>)
    requires PaidOnce(st, executors, payouts) && payouts != []
    ensures var last := payouts[|payouts| - 1];
            PaidOnce(st.(settlementOf := st.settlementOf - {last.policyId}), executors, payouts[..|payouts| - 1])
  {
    var front, last := payouts[..|payouts| - 1], payouts[|payouts| - 1];
    var less := st.(settlementOf := st.settlementOf - {last.policyId});
    forall k | 0 <= k < |front| ensures PaidFor(less, executors, front[k]) {
      assert PaidFor(st, executors, payouts[k]);
    }
    OthersStillPaid(st, executors, payouts);
  }

  lemma OthersStillPaid(st: Settling.Storage, executors: set<Address>, payouts: seq<PayoutCall>)
    requires PaidOnce(st, executors, payouts) && payouts != []
    ensures var front, last := payouts[..|payouts| - 1], payouts[|payouts| - 1];
            forall p :: p in st.settlementOf && p != last.policyId && st.settlementOf[p].amount > 0 ==>
              exists k :: 0 <= k < |front| && front[k].policyId == p
  {
    hide PaidFor;
    var front, last := payouts[..|payouts| - 1], payouts[|payouts| - 1];
    forall p | p in st.settlementOf && p != last.policyId && st.settlementOf[p].amount > 0
      ensures exists k :: 0 <= k < |front| && front[k].policyId == p
    {
      var k :| 0 <= k < |payouts| && payouts[k].policyId == p;
      assert front[k].policyId == p;
    }
  }

  lemma {:induction false} AllThroughPools(d: Deployment, payouts: seq<PayoutCall>)
    requires forall k :: 0 <= k < |payouts| ==> payouts[k].executor in d.pools
    ensures PoolPayouts(d, payouts) == payouts
  {
    if payouts != [] {
      AllThroughPools(d, payouts[..|payouts| - 1]);
    }
  }

  /** The amounts asked of executors always total the recorded settlements. When every executor
      ever configured was a pool, the tokens the pools bound here sent out as payouts are, one
      by one and in order, those payouts, so they total the recorded settlements too. */
  lemma PaymentsAreConserved(d: Deployment, s: World)
    requires Reachable(d, s)
    ensures TotalOf(s.payouts) == TotalSettled(s.settlement.settlementOf)
    ensures s.executors <= d.pools.Keys ==>
              PayoutTransfers(d, s.ledger.transfers) == s.payouts
              && TotalOf(PayoutTransfers(d, s.ledger.transfers)) == TotalSettled(s.settlement.settlementOf)
  {
    ReachableInv(d, s);
    hide Balanced, PayoutTransfers, PoolPayouts;
    TotalsAgree(s.settlement, s.executors, s.payouts);
    if s.executors <= d.pools.Keys {
      forall k | 0 <= k < |s.payouts| ensures s.payouts[k].executor in d.pools {
        assert PaidFor(s.settlement, s.executors, s.payouts[k]);
      }
      AllThroughPools(d, s.payouts);
    }
  }

  lemma {:induction false} PoolsSendNothingPlainly(transfers: seq<Transfer>, pool: Address)
    requires forall k :: 0 <= k < |transfers| && transfers[k].from == pool ==> !transfers[k].kind.Plain?
    ensures SentPlainly(transfers, pool) == 0
  {
    if transfers != [] {
      PoolsSendNothingPlainly(transfers[..|transfers| - 1], pool);
    }
  }

  /** A pool's balance is what it started with, plus everything transferred to it, minus payouts
      and withdrawals: nothing leaves it any other way, and paying itself changes nothing. */
  lemma PoolBalanceIsAccounted(d: Deployment, s: World, pool: Address)
    requires Reachable(d, s) && pool in d.pools
    ensures BalanceOf(s.ledger.balances, pool)
            == BalanceOf(d.initialBalances, pool) + Inflow(s.ledger.transfers, pool)
               - PaidOut(s.ledger.transfers, pool) - Withdrawn(s.ledger.transfers, pool)
  {
    ReachableInv(d, s);
    hide Core, PayoutTransfers, PoolPayouts;
    assert Accounted(d.initialBalances, s.ledger, pool);
    PoolsSendNothingPlainly(s.ledger.transfers, pool);
  }

  // ---- and a good decision does settle

  /** The other direction: a decision an enclave signed after scoring, presented with a signature
      that recovers to it while it is in production, settles its still open policy; when something
      is owed and the executor is a funded pool, the recipient is paid the scored amount from it. */
  lemma SignedDecisionSettles(d: Deployment, s: World, x: Signed, k: nat, signature: Bytes, inner: seq<Call>)
    requires Reachable(d, s) && d.chainId < UINT256_LIMIT
    requires k < |s.enclaveLog| && s.enclaveLog[k].Scored? && ScoringOk(s, k) && AnswersScoring(s, x, k)
    requires x.result.status == 1
    requires Signing.RecoverTeeId(d.keccak, d.recover, d.chainId, x.result, signature) == Ok(x.tee)
    requires s.settlement.extensionId != 0 && x.tee in s.machines
    requires s.machines[x.tee] == Machine(s.settlement.extensionId, Production)
    requires x.result.id !in s.settlement.decisionSettled
    requires !Settling.IsSettled(s.settlement, s.enclaveLog[k].policyId)
    requires var request := DecisionCodec.Decode(s.instructions[x.result.id].message).value;
             var amount := Scoring.Payout(s.enclaveLog[k].model, request.value);
             amount > 0 ==>
               && BoundPool(d, s.settlement.executor) && s.settlement.executor != ZERO_ADDRESS
               && request.payoutTo != ZERO_ADDRESS && amount <= BalanceOf(s.ledger.balances, s.settlement.executor)
    ensures var a := Settling.Arguments(x.result.id, x.result.status, x.result.tag, x.result.data, signature);
            var (t, ok) := Exec(d, s, Settle(a, inner, true));
            var request := DecisionCodec.Decode(s.instructions[x.result.id].message).value;
            var amount := Scoring.Payout(s.enclaveLog[k].model, request.value);
            && ok && Settling.IsSettled(t.settlement, s.enclaveLog[k].policyId)
            && t.settlement.settlementOf[s.enclaveLog[k].policyId].amount == amount
            && (amount > 0 ==>
                  t.ledger.transfers == s.ledger.transfers
                    + [Transfer(s.settlement.executor, request.payoutTo, amount, Payout(s.enclaveLog[k].policyId))])
  {
    ReachableInv(d, s);
    hide Inv, EvaluationOk, Signing.RecoverTeeId, RequestHash, DecisionCodec.AbiDecode, DecisionCodec.Decode, Exec;
    var e := EvaluationBehind(d, s, x.result.id);
    ScoringMatchesEvaluation(d, s, x, e, k);
    EvaluationReads(d, s, e);
    EvaluationBound(d, s, e);
    ScoringMatchesTag(s, x, k);
    var a := Settling.Arguments(x.result.id, x.result.status, x.result.tag, x.result.data, signature);
    var request := DecisionCodec.Decode(s.instructions[x.result.id].message).value;
    var amount := Scoring.Payout(s.enclaveLog[k].model, request.value);
    var decision := DecisionCodec.Tuple(s.enclaveLog[k].policyId, amount, request.payoutTo);
    Settling.DecodesIff(a.data, decision);
    Settling.CheckAcceptsIff(s.settlement, ContextOf(d, s), a, decision);
    CheckedDecisionPays(d, s, a, inner, decision);
  }

  /** With no executor or a pool as executor, a checked decision settles exactly when nothing is owed
      or there is a pool, the recipient is an address and the pool can pay; otherwise nothing changes
      at all. */
  lemma CheckedDecisionPays(d: Deployment, s: World, a: Settling.Arguments, inner: seq<Call>, decision: DecisionCodec.Tuple)
    requires Settling.Check(s.settlement, ContextOf(d, s), a) == Ok(decision)
    requires decision.value > 0 && s.settlement.executor != ZERO_ADDRESS ==> BoundPool(d, s.settlement.executor)
    ensures var (t, ok) := Exec(d, s, Settle(a, inner, true));
            && (ok <==> decision.value == 0
                        || (s.settlement.executor != ZERO_ADDRESS && decision.payoutTo != ZERO_ADDRESS
                            && decision.value <= BalanceOf(s.ledger.balances, s.settlement.executor)))
            && (!ok ==> t == s)
            && (ok ==> Settling.IsSettled(t.settlement, decision.policyId)
                       && t.settlement.settlementOf[decision.policyId].amount == decision.value)
            && (ok && decision.value > 0 ==>
                  t.ledger.transfers == s.ledger.transfers
                    + [Transfer(s.settlement.executor, decision.payoutTo, decision.value, Payout(decision.policyId))])
  {
    hide Settling.Check;
  }

  lemma EvaluationBehind(d: Deployment, s: World, id: Word) returns (e: nat)
    requires Inv(d, s) && id in s.instructions && s.instructions[id].command == Enclave.Evaluate
    ensures e < |s.evaluations| && s.evaluations[e].id == id && EvaluationOk(d, s, s.evaluations[e])
  {
    hide EvaluationOk, MoneyOk;
    e :| 0 <= e < |s.evaluations| && s.evaluations[e].id == id;
  }

  lemma EvaluationBound(d: Deployment, s: World, e: nat)
    requires e < |s.evaluations| && EvaluationOk(d, s, s.evaluations[e])
    ensures InstructionSending.TriggerOf(s.sender, s.evaluations[e].policyId) != ZERO_WORD
  {
  }

  /** The instruction of an evaluation decodes to what was evaluated. */
  lemma EvaluationReads(d: Deployment, s: World, e: nat)
    requires e < |s.evaluations| && EvaluationOk(d, s, s.evaluations[e])
    ensures var v := s.evaluations[e];
            DecisionCodec.Decode(s.instructions[v.id].message)
            == Ok(DecisionCodec.Tuple(v.policyId, Rainfall(v.proof.data.abiEncodedData).value, v.payoutTo))
  {
    var v := s.evaluations[e];
    RainfallIsWord(v.proof.data.abiEncodedData);
    DecisionCodec.EncodedTupleReadsBackEverywhere(v.policyId, Rainfall(v.proof.data.abiEncodedData).value, v.payoutTo);
  }
}
