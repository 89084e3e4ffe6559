/** What a registration that reports success has done: every step of its command, each exactly once,
    with the requests it owes, the one to production among them. */
module Completing {
  import opened Wrappers
  import opened Bytes
  import opened Registration

  /** A step the command asks for and the checkpoint has not got. */
  predicate Owed(command: string, c: Checkpoint, letter: char) {
    letter in command && letter !in c.completed
  }

  function IdOf(answer: Answer): Word {
    if answer.Answered? then answer.id else ZERO_WORD
  }

  /** The attestation and the check that end up recorded. */
  function RecordedAttestation(command: string, c: Checkpoint, o: Outside): Word {
    if Owed(command, c, 'R') then IdOf(o.attestedAgain)
    else if Owed(command, c, 'r') then IdOf(o.attested)
    else c.attestation
  }

  function RecordedCheck(command: string, c: Checkpoint, o: Outside): Word {
    if Owed(command, c, 'a') then IdOf(o.checked) else c.check
  }

  /** The attestation a check is requested with: the recorded one if the command attests at all. */
  function CheckedAttestation(command: string, c: Checkpoint, o: Outside): Word {
    if 'r' in command || 'R' in command then RecordedAttestation(command, c, o) else ZERO_WORD
  }

  /** The steps newly completed, in order. */
  function Completed(command: string, c: Checkpoint): string {
    c.completed + (if Owed(command, c, 'r') then ['r'] else []) + (if Owed(command, c, 'R') then ['R'] else [])
      + (if Owed(command, c, 'a') then ['a'] else [])
  }

  function AttestationsOwed(command: string, c: Checkpoint, o: Outside): seq<Request> {
    (if Owed(command, c, 'r') then [Attestation(o.registered, Some(IdOf(o.attested)))] else [])
      + (if Owed(command, c, 'R') then [Attestation(true, Some(IdOf(o.attestedAgain)))] else [])
  }

  function ChecksOwed(command: string, c: Checkpoint, o: Outside): seq<Request> {
    if Owed(command, c, 'a') then
      [AvailabilityCheck(CheckedAttestation(command, c, o), Some(IdOf(o.checked)), RecordedAttestation(command, c, o))]
    else []
  }

  /** The proof of the machine's check goes to production unless the machine is there already; the
      check is the recorded one, or the one given when the command makes none. */
  function ProductionOwed(command: string, argument: Word, c: Checkpoint, o: Outside): seq<Request> {
    if 'p' in command && o.status != Some(2) then
      [ToProduction(if 'a' in command then RecordedCheck(command, c, o) else argument, RecordedCheck(command, c, o))]
    else []
  }

  function SavesOwed(command: string, c: Checkpoint, o: Outside): seq<Save> {
    (if Owed(command, c, 'r') then [o.saveR] else []) + (if Owed(command, c, 'R') then [o.saveAgain] else [])
      + (if Owed(command, c, 'a') then [o.saveCheck] else [])
  }

  /** The operations of a run: two for each owed step, and fetching the proof. */
  function Operations(command: string, c: Checkpoint): nat {
    (if Owed(command, c, 'r') then 2 else 0) + (if Owed(command, c, 'R') then 2 else 0)
      + (if Owed(command, c, 'a') then 2 else 0) + (if 'p' in command then 1 else 0)
  }

  // ---- step by step

  lemma AttestationOutcome(p: Process, command: string, letter: char, renewed: bool, answer: Answer, save: Save)
    requires p.Running?
    ensures var after, owed := AttestationStep(p, command, letter, renewed, answer, save), Owed(command, p.memory, letter);
            && (after.Running? <==> (owed ==> answer.Answered? && p.lifetime >= 2))
            && (after.Running? ==>
                  && after.memory == (if owed then Checkpoint(p.memory.completed + [letter], IdOf(answer), p.memory.check) else p.memory)
                  && after.attestation == (if letter in command then after.memory.attestation else p.attestation)
                  && after.check == p.check
                  && after.requests == p.requests + (if owed then [Attestation(renewed, Some(IdOf(answer)))] else [])
                  && after.saves == p.saves + (if owed then [save] else [])
                  && after.lifetime == p.lifetime - (if owed then 2 else 0))
  {
    assert p.requests + [] == p.requests && p.saves + [] == p.saves;
  }

  lemma CheckOutcome(p: Process, command: string, argument: Word, o: Outside)
    requires p.Running?
    ensures var after, owed := CheckStep(p, command, argument, o), Owed(command, p.memory, 'a');
            && (after.Running? <==> (owed ==> o.inSync && o.checked.Answered? && p.lifetime >= 2))
            && (after.Running? ==>
                  && after.memory == (if owed then Checkpoint(p.memory.completed + ['a'], p.memory.attestation, IdOf(o.checked))
                                      else p.memory)
                  && after.check == (if 'a' in command then after.memory.check else argument)
                  && after.requests == p.requests + (if owed then
                       [AvailabilityCheck(p.attestation, Some(IdOf(o.checked)), p.memory.attestation)] else [])
                  && after.saves == p.saves + (if owed then [o.saveCheck] else [])
                  && after.lifetime == p.lifetime - (if owed then 2 else 0))
  {
    assert p.requests + [] == p.requests && p.saves + [] == p.saves;
  }

  /** A step that stops the run: killed before its request, or between its request and its save;
      failed when the request is refused; and stopped by a request that was sent and lost, which is
      among the requests all the same. */
  lemma StoppedWhileAttesting(p: Process, command: string, letter: char, renewed: bool, answer: Answer, save: Save)
    requires p.Running? && AttestationStep(p, command, letter, renewed, answer, save).Stopped?
    ensures var after := AttestationStep(p, command, letter, renewed, answer, save);
            && after.file == p.file && after.saves == p.saves
            && (p.lifetime == 0 ==> after.outcome == Killed && after.requests == p.requests)
            && (p.lifetime > 0 ==>
                  match answer
                  case Refused => after.outcome == Failed && after.requests == p.requests
                  case Lost(stop) => after.outcome == stop && after.requests == p.requests + [Attestation(renewed, None)]
                  case Answered(id) =>
                    after.outcome == Killed && after.requests == p.requests + [Attestation(renewed, Some(id))])
  {
  }

  lemma StoppedWhileChecking(p: Process, command: string, argument: Word, o: Outside)
    requires p.Running? && CheckStep(p, command, argument, o).Stopped?
    ensures var after := CheckStep(p, command, argument, o);
            && after.file == p.file && after.saves == p.saves
            && (p.lifetime == 0 ==> after.outcome == Killed && after.requests == p.requests)
            && (p.lifetime > 0 && !o.inSync ==> after.outcome == Failed && after.requests == p.requests)
            && (p.lifetime > 0 && o.inSync ==>
                  match o.checked
                  case Refused => after.outcome == Failed && after.requests == p.requests
                  case Lost(stop) =>
                    && after.outcome == stop
                    && after.requests == p.requests + [AvailabilityCheck(p.attestation, None, p.memory.attestation)]
                  case Answered(id) =>
                    && after.outcome == Killed
                    && after.requests == p.requests + [AvailabilityCheck(p.attestation, Some(id), p.memory.attestation)])
  {
  }

  /** Going to production stops a run without a proof before anything is sent, and with a proof that
      is not taken after it was sent. */
  lemma StoppedBeforeProduction(p: Process, command: string, o: Outside)
    requires p.Running? && ProductionStep(p, command, o).Stopped?
    ensures var after := ProductionStep(p, command, o);
            && after.file == p.file && after.saves == p.saves
            && (p.lifetime == 0 ==> after.outcome == Killed && after.requests == p.requests)
            && (p.lifetime > 0 ==>
                  && after.outcome == Failed
                  && after.requests == p.requests + if o.proofReady then [ToProduction(p.check, p.memory.check)] else [])
  {
    assert p.requests + [] == p.requests;
  }

  /** The process once its attestations are behind it. */
  lemma AttestationsOutcome(file: File, requests: seq<Request>, command: string, o: Outside)
    requires Start(file, requests, o).Running?
    ensures var c, after := Start(file, requests, o).memory, AfterAgain(file, requests, command, o);
            && (after.Running? <==>
                  && (Owed(command, c, 'r') ==> o.attested.Answered?) && (Owed(command, c, 'R') ==> o.attestedAgain.Answered?)
                  && o.lifetime >= (if Owed(command, c, 'r') then 2 else 0) + (if Owed(command, c, 'R') then 2 else 0))
            && (after.Running? ==>
                  && after.memory.completed == c.completed + (if Owed(command, c, 'r') then ['r'] else [])
                                               + (if Owed(command, c, 'R') then ['R'] else [])
                  && after.memory.attestation == RecordedAttestation(command, c, o) && after.memory.check == c.check
                  && after.attestation == CheckedAttestation(command, c, o)
                  && after.requests == requests + AttestationsOwed(command, c, o)
                  && after.saves == (if Owed(command, c, 'r') then [o.saveR] else [])
                                    + (if Owed(command, c, 'R') then [o.saveAgain] else [])
                  && after.lifetime == o.lifetime - (if Owed(command, c, 'r') then 2 else 0)
                                       - (if Owed(command, c, 'R') then 2 else 0))
  {
    hide AttestationStep, LoadState;
    var start := Start(file, requests, o);
    var c := start.memory;
    AttestationOutcome(start, command, 'r', o.registered, o.attested, o.saveR);
    var afterR := AfterR(file, requests, command, o);
    if afterR.Running? {
      AttestationOutcome(afterR, command, 'R', true, o.attestedAgain, o.saveAgain);
      assert 'R' in c.completed + ['r'] <==> 'R' in c.completed;
    } else {
      StoppedAttests(afterR, command, 'R', true, o.attestedAgain, o.saveAgain);
    }
  }

  lemma StoppedAttests(p: Process, command: string, letter: char, renewed: bool, answer: Answer, save: Save)
    requires p.Stopped?
    ensures AttestationStep(p, command, letter, renewed, answer, save) == p
  {
  }

  /** The process once its check is behind it too. */
  lemma ChecksOutcome(file: File, requests: seq<Request>, command: string, argument: Word, o: Outside)
    requires Start(file, requests, o).Running?
    ensures var c, after := Start(file, requests, o).memory, CheckStep(AfterAgain(file, requests, command, o), command, argument, o);
            && (after.Running? <==>
                  && (Owed(command, c, 'r') ==> o.attested.Answered?) && (Owed(command, c, 'R') ==> o.attestedAgain.Answered?)
                  && (Owed(command, c, 'a') ==> o.inSync && o.checked.Answered?)
                  && o.lifetime >= Operations(command, c) - (if 'p' in command then 1 else 0))
            && (after.Running? ==>
                  && after.memory == Checkpoint(Completed(command, c), RecordedAttestation(command, c, o), RecordedCheck(command, c, o))
                  && after.check == (if 'a' in command then RecordedCheck(command, c, o) else argument)
                  && after.requests == requests + AttestationsOwed(command, c, o) + ChecksOwed(command, c, o)
                  && after.saves == SavesOwed(command, c, o)
                  && after.lifetime == o.lifetime - Operations(command, c) + (if 'p' in command then 1 else 0))
  {
    hide AttestationStep, CheckStep, LoadState, AfterAgain, AttestationsOwed;
    var c, again := Start(file, requests, o).memory, AfterAgain(file, requests, command, o);
    AttestationsOutcome(file, requests, command, o);
    if again.Running? {
      CheckOutcome(again, command, argument, o);
      var added := (if Owed(command, c, 'r') then ['r'] else []) + (if Owed(command, c, 'R') then ['R'] else []);
      assert again.memory.completed == c.completed + added && 'a' !in added;
      assert 'a' in again.memory.completed <==> 'a' in c.completed;
    } else {
      StoppedChecks(again, command, argument, o);
    }
  }

  lemma StoppedChecks(p: Process, command: string, argument: Word, o: Outside)
    requires p.Stopped?
    ensures CheckStep(p, command, argument, o) == p
  {
  }

  // ---- the whole run

  /** A run is done exactly when it starts, every owed request is answered, the proof is there and the
      machine is or comes to be in production, and nothing kills the process before its end. */
  lemma DoneIff(file: File, requests: seq<Request>, command: string, argument: Word, o: Outside)
    ensures var start := Start(file, requests, o);
            RunOnce(file, requests, command, argument, o).outcome == Done <==>
              && start.Running?
              && var c := start.memory;
                 && (Owed(command, c, 'r') ==> o.attested.Answered?)
                 && (Owed(command, c, 'R') ==> o.attestedAgain.Answered?)
                 && (Owed(command, c, 'a') ==> o.inSync && o.checked.Answered?)
                 && ('p' in command ==> o.proofReady && (o.status == Some(2) || o.produced))
                 && o.lifetime > Operations(command, c)
  {
    hide AttestationStep, CheckStep, LoadState, AfterAgain, AfterR, RunOnce;
    StoppedIsFinal(file, requests, command, argument, o);
    assert AfterAgain(file, requests, command, o)
        == AttestationStep(AfterR(file, requests, command, o), command, 'R', true, o.attestedAgain, o.saveAgain)
        by { NamedSteps(file, requests, command, o); }
    NamedSteps(file, requests, command, o);
    if Start(file, requests, o).Running? {
      ChecksOutcome(file, requests, command, argument, o);
      NeverDoneEarly(file, requests, command, argument, o);
    }
  }

  lemma NamedSteps(file: File, requests: seq<Request>, command: string, o: Outside)
    ensures AfterR(file, requests, command, o)
            == AttestationStep(Start(file, requests, o), command, 'r', o.registered, o.attested, o.saveR)
    ensures AfterAgain(file, requests, command, o)
            == AttestationStep(AfterR(file, requests, command, o), command, 'R', true, o.attestedAgain, o.saveAgain)
  {
  }

  /** No step before the last ends a run as done. */
  lemma NeverDoneEarly(file: File, requests: seq<Request>, command: string, argument: Word, o: Outside)
    ensures var checked := CheckStep(AfterAgain(file, requests, command, o), command, argument, o);
            checked.Stopped? ==> checked.outcome != Done
  {
    hide SaveStep, LoadState;
    NotDoneByAttesting(Start(file, requests, o), command, 'r', o.registered, o.attested, o.saveR);
    NotDoneByAttesting(AfterR(file, requests, command, o), command, 'R', true, o.attestedAgain, o.saveAgain);
    NotDoneByChecking(AfterAgain(file, requests, command, o), command, argument, o);
  }

  lemma NotDoneByAttesting(p: Process, command: string, letter: char, renewed: bool, answer: Answer, save: Save)
    requires p.Stopped? ==> p.outcome != Done
    ensures var after := AttestationStep(p, command, letter, renewed, answer, save);
            after.Stopped? ==> after.outcome != Done
  {
  }

  lemma NotDoneByChecking(p: Process, command: string, argument: Word, o: Outside)
    requires p.Stopped? ==> p.outcome != Done
    ensures var after := CheckStep(p, command, argument, o);
            after.Stopped? ==> after.outcome != Done
  {
  }

  /** A run that is done has sent exactly the requests it owed, in order, the to-production proof
      last; has made a save for each newly completed step; and has completed every step of its
      command, as its checkpoint says unless it was removed or a save went wrong. */
  lemma DoneSendsWhatIsOwed(file: File, requests: seq<Request>, command: string, argument: Word, o: Outside)
    requires RunOnce(file, requests, command, argument, o).outcome == Done
    ensures Start(file, requests, o).Running?
    ensures var c, p := Start(file, requests, o).memory, RunOnce(file, requests, command, argument, o);
            && p.requests == requests + AttestationsOwed(command, c, o) + ChecksOwed(command, c, o)
                             + ProductionOwed(command, argument, c, o)
            && p.saves == SavesOwed(command, c, o)
            && (o.removed ==> p.file == Missing)
            && (!o.removed && p.saves != [] && p.saves[|p.saves| - 1] == Written ==>
                  p.file == Stored(Checkpoint(Completed(command, c), RecordedAttestation(command, c, o), RecordedCheck(command, c, o))))
    ensures forall x :: x in command && (x == 'r' || x == 'R' || x == 'a') ==>
              x in Completed(command, Start(file, requests, o).memory)
  {
    hide AttestationStep, CheckStep, LoadState, AfterAgain, AfterR, RunOnce, AttestationsOwed, ChecksOwed, SavesOwed;
    DoneIff(file, requests, command, argument, o);
    StoppedIsFinal(file, requests, command, argument, o);
    NamedSteps(file, requests, command, o);
    ChecksOutcome(file, requests, command, argument, o);
    LastSaveIsStored(file, requests, command, argument, o);
    StepsAreCompleted(command, Start(file, requests, o).memory);
    var checked := CheckStep(AfterAgain(file, requests, command, o), command, argument, o);
    assert checked.requests + [] == checked.requests;
  }

  lemma StepsAreCompleted(command: string, c: Checkpoint)
    ensures forall x :: x in command && (x == 'r' || x == 'R' || x == 'a') ==> x in Completed(command, c)
  {
  }

  /** While a process runs, a file last written whole holds what is in memory. */
  predicate Mirrors(p: Process) {
    p.Running? && p.saves != [] && p.saves[|p.saves| - 1] == Written ==> p.file == Stored(p.memory)
  }

  lemma LastSaveIsStored(file: File, requests: seq<Request>, command: string, argument: Word, o: Outside)
    ensures Mirrors(CheckStep(AfterAgain(file, requests, command, o), command, argument, o))
  {
    hide AttestationStep, CheckStep, LoadState, Mirrors;
    assert Mirrors(Start(file, requests, o)) by { NothingSaved(file, requests, o); }
    MirrorsAfterAttesting(Start(file, requests, o), command, 'r', o.registered, o.attested, o.saveR);
    MirrorsAfterAttesting(AfterR(file, requests, command, o), command, 'R', true, o.attestedAgain, o.saveAgain);
    MirrorsAfterChecking(AfterAgain(file, requests, command, o), command, argument, o);
  }

  lemma NothingSaved(file: File, requests: seq<Request>, o: Outside)
    ensures Mirrors(Start(file, requests, o))
  {
  }

  lemma MirrorsAfterAttesting(p: Process, command: string, letter: char, renewed: bool, answer: Answer, save: Save)
    requires Mirrors(p)
    ensures Mirrors(AttestationStep(p, command, letter, renewed, answer, save))
  {
  }

  lemma MirrorsAfterChecking(p: Process, command: string, argument: Word, o: Outside)
    requires Mirrors(p)
    ensures Mirrors(CheckStep(p, command, argument, o))
  {
  }
}
