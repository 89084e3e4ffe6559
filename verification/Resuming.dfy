/** When a registration can be resumed: what a save that stops half-way costs, who pays for it,
    and exactly which histories leave a checkpoint that no later run gets past. */
module Resuming {
  import opened Wrappers
  import opened Bytes
  import opened Registration
  import Completing

  /** A run gets past loading exactly when its tool and machine are ready and the file is absent
      or can be read and parses; it goes on from the stored checkpoint, or from none. */
  lemma StartsIff(file: File, requests: seq<Request>, o: Outside)
    ensures Start(file, requests, o).Running? <==> o.teeIdOk && (file.Missing? || (o.readable && file.Stored?))
    ensures Start(file, requests, o).Running? ==>
              Start(file, requests, o).memory == if file.Stored? then file.checkpoint else Checkpoint("", ZERO_WORD, ZERO_WORD)
  {
  }

  /** An invocation that does not ask to resume starts from nothing, whatever was stored, unless the
      old file could not be removed; one that asks to resume starts from what is stored. */
  lemma FreshUnlessResumed(file: File, requests: seq<Request>, command: string, argument: Word, o: Outside)
    ensures !o.resume && o.cleared ==>
              Invoke(file, requests, command, argument, o) == RunOnce(Missing, requests, command, argument, o)
    ensures o.resume || !o.cleared ==>
              Invoke(file, requests, command, argument, o) == RunOnce(file, requests, command, argument, o)
  {
  }

  // ---- one run

  /** The last save that touched the file. */
  function LastWrite(saves: seq<Save>): Option<Save> {
    if saves == [] then None
    else if saves[|saves| - 1] != Untouched then Some(saves[|saves| - 1])
    else LastWrite(saves[..|saves| - 1])
  }

  /** What the saves of a process say about its file. */
  ghost predicate FileFollows(start: File, file: File, saves: seq<Save>) {
    match LastWrite(saves)
    case None => file == start
    case Some(save) => (save == Torn <==> file == Unparsable) && file != Missing
  }

  lemma SaveFollows(start: File, p: Process, save: Save)
    requires p.Running? && FileFollows(start, p.file, p.saves)
    ensures var after := SaveStep(p, save); FileFollows(start, after.file, after.saves)
  {
    assert (p.saves + [save])[..|p.saves|] == p.saves;
  }

  lemma AttestationFollows(start: File, p: Process, command: string, letter: char, renewed: bool, answer: Answer, save: Save)
    requires FileFollows(start, p.file, p.saves)
    ensures var after := AttestationStep(p, command, letter, renewed, answer, save);
            FileFollows(start, after.file, after.saves)
  {
    hide SaveStep, FileFollows;
    if p.Running? && letter in command && letter !in p.memory.completed && p.lifetime > 0 && answer.Answered? {
      SaveFollows(start,
                  p.(memory := Checkpoint(p.memory.completed + [letter], answer.id, p.memory.check), attestation := answer.id,
                     requests := p.requests + [Attestation(renewed, Some(answer.id))], lifetime := p.lifetime - 1), save);
    }
  }

  lemma CheckFollows(start: File, p: Process, command: string, argument: Word, o: Outside)
    requires FileFollows(start, p.file, p.saves)
    ensures var after := CheckStep(p, command, argument, o); FileFollows(start, after.file, after.saves)
  {
    hide SaveStep, FileFollows;
    if p.Running? && 'a' in command && 'a' !in p.memory.completed && p.lifetime > 0 && o.inSync && o.checked.Answered? {
      var id := o.checked.id;
      SaveFollows(start,
                  p.(memory := Checkpoint(p.memory.completed + ['a'], p.memory.attestation, id), check := id,
                     requests := p.requests + [AvailabilityCheck(p.attestation, Some(id), p.memory.attestation)],
                     lifetime := p.lifetime - 1), o.saveCheck);
    }
  }

  /** The file after a run is unparsable exactly when the last save that touched it was torn, or
      none did and it was unparsable before, and the run did not get to remove it. */
  lemma RunTearsIff(file: File, requests: seq<Request>, command: string, argument: Word, o: Outside)
    ensures var p := RunOnce(file, requests, command, argument, o);
            p.file == Unparsable <==>
              && (LastWrite(p.saves) == Some(Torn) || (LastWrite(p.saves) == None && file == Unparsable))
              && !(p.outcome == Done && o.removed)
  {
    hide AttestationStep, CheckStep, LoadState, LastWrite;
    var start := Start(file, requests, o);
    assert FileFollows(file, start.file, start.saves) by { NothingWritten(file); }
    AttestationFollows(file, start, command, 'r', o.registered, o.attested, o.saveR);
    var afterR := AfterR(file, requests, command, o);
    AttestationFollows(file, afterR, command, 'R', true, o.attestedAgain, o.saveAgain);
    var again := AfterAgain(file, requests, command, o);
    CheckFollows(file, again, command, argument, o);
    Completing.NeverDoneEarly(file, requests, command, argument, o);
  }

  lemma NothingWritten(file: File)
    ensures FileFollows(file, file, [])
  {
  }

  // ---- any history

  /** Invocation i tore the checkpoint: the last save that touched the file was torn, and the
      file was not removed at the end. */
  ghost predicate TearsAt(command: string, argument: Word, outsides: seq<Outside>, i: nat)
    requires i < |outsides|
  {
    var (before, sent) := Runs(Missing, [], command, argument, outsides[..i]);
    var p := Invoke(before, sent, command, argument, outsides[i]);
    LastWrite(p.saves) == Some(Torn) && !(p.outcome == Done && outsides[i].removed)
  }

  /** A torn checkpoint that no later invocation cleared. */
  ghost predicate TornSince(command: string, argument: Word, outsides: seq<Outside>, i: nat)
    requires i < |outsides|
  {
    TearsAt(command, argument, outsides, i) && forall j :: i < j < |outsides| ==> !Clears(outsides[j])
  }

  /** Once torn, a file stays as it is through every invocation that does not clear it, and such an
      invocation sends nothing. */
  lemma TornCheckpointBlocks(requests: seq<Request>, command: string, argument: Word, o: Outside)
    requires !Clears(o)
    ensures Invoke(Unparsable, requests, command, argument, o) == Stopped(Unparsable, requests, [], Failed)
  {
  }

  /** Over every history from no file: the checkpoint is unparsable exactly when some invocation
      tore it and none since was told to start fresh. */
  lemma {:induction false} UnparsableIff(command: string, argument: Word, outsides: seq<Outside>)
    ensures Runs(Missing, [], command, argument, outsides).0 == Unparsable <==>
              exists i :: 0 <= i < |outsides| && TornSince(command, argument, outsides, i)
    decreases |outsides|
  {
    hide RunOnce, LastWrite;
    if outsides != [] {
      var n := |outsides| - 1;
      var front, o := outsides[..n], outsides[n];
      var (before, sent) := Runs(Missing, [], command, argument, front);
      var p := Invoke(before, sent, command, argument, o);
      UnparsableIff(command, argument, front);
      RunTearsIff(FileAtStart(before, o), sent, command, argument, o);
      assert TearsAt(command, argument, outsides, n) <==> LastWrite(p.saves) == Some(Torn) && !(p.outcome == Done && o.removed);
      forall i | 0 <= i < n ensures TearsAt(command, argument, outsides, i) == TearsAt(command, argument, front, i) {
        assert outsides[..i] == front[..i];
      }
      if p.file == Unparsable {
        if TearsAt(command, argument, outsides, n) {
          assert TornSince(command, argument, outsides, n);
        } else {
          var i :| 0 <= i < n && TornSince(command, argument, front, i);
          assert TornSince(command, argument, outsides, i);
        }
      } else if i :| 0 <= i <= n && TornSince(command, argument, outsides, i) {
        if i < n {
          assert TornSince(command, argument, front, i);
          TornCheckpointBlocks(sent, command, argument, o);
          assert false;
        } else {
          assert false;
        }
      }
    }
  }

  /** The promise that a registration can be resumed, exactly: after any history, an invocation that
      asks to resume gets past loading if and only if it is ready, the file is absent or readable,
      and no torn save is outstanding. */
  lemma ResumesIff(command: string, argument: Word, outsides: seq<Outside>, o: Outside)
    requires o.resume
    ensures var (file, requests) := Runs(Missing, [], command, argument, outsides);
            Start(FileAtStart(file, o), requests, o).Running? <==>
              && o.teeIdOk && (file.Missing? || o.readable)
              && !exists i :: 0 <= i < |outsides| && TornSince(command, argument, outsides, i)
  {
    var (file, requests) := Runs(Missing, [], command, argument, outsides);
    UnparsableIff(command, argument, outsides);
    StartsIff(file, requests, o);
  }

  /** Without a torn save no history ends in an unparsable file, whatever else goes wrong. */
  lemma {:induction false} OnlyTornSavesTear(command: string, argument: Word, outsides: seq<Outside>)
    requires forall i :: 0 <= i < |outsides| ==>
               outsides[i].saveR != Torn && outsides[i].saveAgain != Torn && outsides[i].saveCheck != Torn
    ensures Runs(Missing, [], command, argument, outsides).0 != Unparsable
    decreases |outsides|
  {
    hide RunOnce;
    if outsides != [] {
      var front, o := outsides[..|outsides| - 1], outsides[|outsides| - 1];
      OnlyTornSavesTear(command, argument, front);
      var (before, sent) := Runs(Missing, [], command, argument, front);
      WholeSavesKeepTheFile(FileAtStart(before, o), sent, command, argument, o);
    }
  }

  lemma WholeSavesKeepTheFile(file: File, requests: seq<Request>, command: string, argument: Word, o: Outside)
    requires file != Unparsable && o.saveR != Torn && o.saveAgain != Torn && o.saveCheck != Torn
    ensures RunOnce(file, requests, command, argument, o).file != Unparsable
  {
    hide AttestationStep, CheckStep, LoadState;
    var start := Start(file, requests, o);
    AttestingKeepsTheFile(start, command, 'r', o.registered, o.attested, o.saveR);
    AttestingKeepsTheFile(AfterR(file, requests, command, o), command, 'R', true, o.attestedAgain, o.saveAgain);
    CheckingKeepsTheFile(AfterAgain(file, requests, command, o), command, argument, o);
  }

  lemma AttestingKeepsTheFile(p: Process, command: string, letter: char, renewed: bool, answer: Answer, save: Save)
    requires p.file != Unparsable && save != Torn
    ensures AttestationStep(p, command, letter, renewed, answer, save).file != Unparsable
  {
  }

  lemma CheckingKeepsTheFile(p: Process, command: string, argument: Word, o: Outside)
    requires p.file != Unparsable && o.saveCheck != Torn
    ensures CheckStep(p, command, argument, o).file != Unparsable
  {
  }

  /** A run that tears: the attestation is answered, and the process dies while saving it. Resuming
      then sends nothing and changes nothing. */
  lemma AttestedAndTorn(argument: Word, id: Word, o: Outside, later: Outside)
    requires o.teeIdOk && o.attested == Answered(id) && o.saveR == Torn && o.lifetime == 2 && later.resume
    ensures Runs(Missing, [], "rRap", argument, [o]) == (Unparsable, [Attestation(o.registered, Some(id))])
    ensures Runs(Missing, [], "rRap", argument, [o, later]) == Runs(Missing, [], "rRap", argument, [o])
  {
    var sent := [Attestation(o.registered, Some(id))];
    TornWhileSaving(argument, id, o);
    TornCheckpointBlocks(sent, "rRap", argument, later);
    hide Invoke;
    assert [o][..0] == [] && [o, later][..1] == [o];
    assert Runs(Missing, [], "rRap", argument, []) == (Missing, []);
    assert Runs(Missing, [], "rRap", argument, [o]) == (Unparsable, sent);
  }

  lemma TornWhileSaving(argument: Word, id: Word, o: Outside)
    requires o.teeIdOk && o.attested == Answered(id) && o.saveR == Torn && o.lifetime == 2
    ensures Invoke(Missing, [], "rRap", argument, o)
            == Stopped(Unparsable, [Attestation(o.registered, Some(id))], [Torn], Killed)
  {
    var memory := Checkpoint("" + ['r'], id, ZERO_WORD);
    assert "rRap"[0] == 'r' && "rRap"[1] == 'R' && 'R' !in memory.completed;
    assert AfterR(Missing, [], "rRap", o)
        == Running(memory, id, ZERO_WORD, Unparsable, [] + [Attestation(o.registered, Some(id))], [] + [Torn], 0);
    assert AfterAgain(Missing, [], "rRap", o)
        == Stopped(Unparsable, [Attestation(o.registered, Some(id))], [Torn], Killed);
  }
}
