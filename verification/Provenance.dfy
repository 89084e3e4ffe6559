/** Which registration a settled amount goes back to. Registering a model is open to anyone and the
    latest one counts, so a registration pays exactly until it is replaced or forgotten. */
module Provenance {
  import opened Wrappers
  import opened Bytes
  import opened Requests
  import opened World
  import opened Invariants
  import opened Reachability
  import opened Guarantees
  import opened Progress
  import Enclave
  import InstructionSending
  import Scoring
  import Settling

  /** After this event the enclave no longer holds an earlier model for the policy. */
  predicate Forgets(e: EnclaveEvent, tee: Address, p: Word) {
    !e.Scored? && e.tee == tee && (e.Loaded? ==> e.policyId == p)
  }

  /** Entry j loaded a model for the policy, and nothing since made the enclave forget it. */
  ghost predicate LastLoad(log: seq<EnclaveEvent>, tee: Address, p: Word, j: nat) {
    && j < |log| && log[j].Loaded? && log[j].tee == tee && log[j].policyId == p
    && forall i :: j < i < |log| ==> !Forgets(log[i], tee, p)
  }

  /** The model held is the one of the last load, and there is none without such a load. */
  lemma {:induction false} HeldIff(log: seq<EnclaveEvent>, tee: Address, p: Word, m: Scoring.Model)
    ensures p in Held(log, tee) && Held(log, tee)[p] == m <==>
              exists j: nat :: LastLoad(log, tee, p, j) && log[j].model == m
    decreases |log|
  {
    if log != [] {
      var n := |log| - 1;
      var front := log[..n];
      HeldIff(front, tee, p, m);
      if Forgets(log[n], tee, p) {
        if log[n].Loaded? {
          assert LastLoad(log, tee, p, n);
        }
        forall j: nat | LastLoad(log, tee, p, j) ensures j == n {
        }
      } else {
        forall j: nat ensures LastLoad(log, tee, p, j) == LastLoad(front, tee, p, j) {
          LastLoadOfFront(log, tee, p, j);
        }
        if j: nat :| LastLoad(front, tee, p, j) && front[j].model == m {
          assert LastLoad(log, tee, p, j) && log[j].model == m;
        }
      }
    }
  }

  lemma LastLoadOfFront(log: seq<EnclaveEvent>, tee: Address, p: Word, j: nat)
    requires log != [] && !Forgets(log[|log| - 1], tee, p)
    ensures LastLoad(log, tee, p, j) == LastLoad(log[..|log| - 1], tee, p, j)
  {
    var front := log[..|log| - 1];
    if LastLoad(front, tee, p, j) {
      forall i | j < i < |log| ensures !Forgets(log[i], tee, p) {
        assert i < |front| ==> log[i] == front[i];
      }
    }
  }

  /** Two loads of one policy into one enclave cannot both be the last. */
  lemma LastLoadIsUnique(log: seq<EnclaveEvent>, tee: Address, p: Word, i: nat, j: nat)
    requires LastLoad(log, tee, p, i) && LastLoad(log, tee, p, j)
    ensures i == j
  {
    assert Forgets(log[i], tee, p) && Forgets(log[j], tee, p);
  }

  /** Of the policy's loads into the enclave before entry k, j is the one that nothing later made it
      forget. */
  ghost predicate OnlyUnforgotten(log: seq<EnclaveEvent>, tee: Address, p: Word, k: nat, j: nat)
    requires k < |log|
  {
    forall i :: (0 <= i < k && log[i].Loaded? && log[i].tee == tee && log[i].policyId == p) ==>
      (i == j <==> forall m :: i < m < k ==> !Forgets(log[m], tee, p))
  }

  /** Behind every settled amount stands one registration: a REGISTER_MODEL instruction whose valid
      model, on the evaluation's reading, pays that amount. A registration of that policy with that
      enclave is the one exactly when no later registration of the policy there, nor a restart,
      precedes the scoring. */
  lemma RegistrationOfRecord(d: Deployment, s: World, p: Word) returns (evaluation: Evaluation, k: nat, j: nat)
    requires Reachable(d, s) && Settling.IsSettled(s.settlement, p)
    ensures evaluation in s.evaluations && evaluation.policyId == p
    ensures j < k < |s.enclaveLog| && s.enclaveLog[k].Scored? && s.enclaveLog[j].Loaded?
    ensures var record, scoring, load := s.settlement.settlementOf[p], s.enclaveLog[k], s.enclaveLog[j];
            && evaluation.id == scoring.id == record.instructionId
            && load.tee == scoring.tee && load.policyId == p
            && load.id in s.instructions && s.instructions[load.id].command == Enclave.RegisterModel
            && Scoring.Score(load.model, Rainfall(evaluation.proof.data.abiEncodedData)) == Ok(record.amount)
    ensures OnlyUnforgotten(s.enclaveLog, s.enclaveLog[k].tee, p, k, j)
  {
    hide Inv, Reachable, Held, Scoring.Score, RequestHash, Rainfall, OnlyUnforgotten, InstructionSending.TriggerOf;
    ReachableInv(d, s);
    evaluation, k := ChainOfCustody(d, s, p);
    j := LoadBehind(s.enclaveLog, s.enclaveLog[k].tee, p, k, s.enclaveLog[k].model);
    LoadOfRegistration(d, s, j);
  }

  lemma LoadBehind(log: seq<EnclaveEvent>, tee: Address, p: Word, k: nat, model: Scoring.Model) returns (j: nat)
    requires k < |log| && p in Held(log[..k], tee) && Held(log[..k], tee)[p] == model
    ensures j < k && log[j].Loaded? && log[j].tee == tee && log[j].policyId == p && log[j].model == model
    ensures OnlyUnforgotten(log, tee, p, k, j)
  {
    hide Held, OnlyUnforgotten;
    HeldIff(log[..k], tee, p, model);
    var l: nat :| LastLoad(log[..k], tee, p, l) && log[..k][l].model == model;
    j := l;
    UnforgottenIsLast(log, tee, p, k, j);
  }

  lemma UnforgottenIsLast(log: seq<EnclaveEvent>, tee: Address, p: Word, k: nat, j: nat)
    requires k < |log| && LastLoad(log[..k], tee, p, j)
    ensures OnlyUnforgotten(log, tee, p, k, j)
  {
    forall i | 0 <= i < k && log[i].Loaded? && log[i].tee == tee && log[i].policyId == p
      ensures i == j <==> forall m :: i < m < k ==> !Forgets(log[m], tee, p)
    {
      LastLoadUpTo(log, k, tee, p, i);
      if LastLoad(log[..k], tee, p, i) {
        LastLoadIsUnique(log[..k], tee, p, i, j);
      }
    }
  }

  lemma LastLoadUpTo(log: seq<EnclaveEvent>, k: nat, tee: Address, p: Word, i: nat)
    requires i < k <= |log| && log[i].Loaded? && log[i].tee == tee && log[i].policyId == p
    ensures LastLoad(log[..k], tee, p, i) <==> forall m :: i < m < k ==> !Forgets(log[m], tee, p)
  {
    var before := log[..k];
    forall m | i < m < k ensures before[m] == log[m] {
    }
  }

  lemma LoadOfRegistration(d: Deployment, s: World, j: nat)
    requires Inv(d, s) && j < |s.enclaveLog| && s.enclaveLog[j].Loaded?
    ensures var load := s.enclaveLog[j];
            load.id in s.instructions && s.instructions[load.id].command == Enclave.RegisterModel
  {
    hide MoneyOk;
  }

  /** The overwriting run: whoever sends a sealed model for a policy, two feasible steps lead to a
      reachable state in which the enclave holds that model and no earlier registration counts. */
  lemma LaterRegistrationReplaces(
    d: Deployment, s: World, tee: Address, p: Word, model: Scoring.Model, ciphertext: Bytes, newId: Word, tag: Bytes)
    returns (t: World)
    requires Reachable(d, s) && d.chainId < UINT256_LIMIT
    requires tee in s.enclaves && s.sender.extensionId != 0 && newId !in s.instructions
    requires p != ZERO_WORD && Scoring.Valid(model) && ciphertext != []
    ensures Reachable(d, t)
    ensures tee in t.enclaves && t.enclaves[tee] == s.enclaves[tee][p := model]
    ensures LastLoad(t.enclaveLog, tee, p, |s.enclaveLog|)
    ensures forall i :: 0 <= i < |s.enclaveLog| ==> !LastLoad(t.enclaveLog, tee, p, i)
    ensures t.settlement == s.settlement && t.sender == s.sender
  {
    hide Reachable, Scoring.Validate;
    var send := Transaction(RegisterModel(ciphertext, newId, true));
    var process := ProcessInstruction(tee, newId, tag, Enclave.Plain(p, model));
    var u := Next(d, s, send);
    ReachableStep(d, s, send);
    ReachableStep(d, u, process);
    t := Next(d, u, process);
    assert t.enclaveLog == s.enclaveLog + [Loaded(tee, newId, p, model)];
    assert Forgets(t.enclaveLog[|s.enclaveLog|], tee, p);
  }
}
