/** RegisterNode: a multi-step registration that saves a checkpoint after each step, ignores
    saves that fail, may be killed between any two operations, and is run again. */
module Registration {
  import opened Wrappers
  import opened Bytes

  datatype Checkpoint = Checkpoint(completed: string, attestation: Word, check: Word)

  const NO_PROGRESS: Checkpoint := Checkpoint("", ZERO_WORD, ZERO_WORD)

  /** The checkpoint file. A write that stops half-way leaves text that does not parse. */
  datatype File = Missing | Stored(checkpoint: Checkpoint) | Unparsable

  /** What a save does to the file; the registration goes on in any case. */
  datatype Save = Written | Untouched | Torn

  /** Requests sent, each with what the checkpoint in memory recorded at that moment. The id is
      missing when the process never learned it. */
  datatype Request =
    | Attestation(renewed: bool, id: Option<Word>)
    | AvailabilityCheck(attestation: Word, id: Option<Word>, recorded: Word)
    | ToProduction(check: Word, recorded: Word)

  datatype Outcome = Done | Failed | Killed

  /** A request is refused before it is sent, is sent and lost to a failed receipt or a kill, or
      gets its id. */
  datatype Answer = Refused | Lost(stop: Stop) | Answered(id: Word)

  type Stop = outcome: Outcome | outcome != Done witness Failed

  /** What the outside does in one run: whether the command line asks to resume and, if not,
      whether the old file is cleared; then the answers. The process is killed before the operation
      numbered `lifetime`. */
  datatype Outside = Outside(
    resume: bool, cleared: bool, teeIdOk: bool, readable: bool, registered: bool,
    attested: Answer, attestedAgain: Answer, inSync: bool, checked: Answer,
    proofReady: bool, status: Option<nat>, produced: bool, removed: bool,
    saveR: Save, saveAgain: Save, saveCheck: Save, lifetime: nat)

  /** The status in which a machine needs no further proof; an unreadable status counts as another. */
  const TEE_STATUS_PRODUCTION: nat := 2

  /** A run in progress, or how it stopped, with the saves it has made. */
  datatype Process =
    | Running(memory: Checkpoint, attestation: Word, check: Word,
              file: File, requests: seq<Request>, saves: seq<Save>, lifetime: nat)
    | Stopped(file: File, requests: seq<Request>, saves: seq<Save>, outcome: Outcome)

  function LoadState(file: File, readable: bool): Option<Checkpoint> {
    if !readable && !file.Missing? then None
    else
      match file
      case Missing => Some(NO_PROGRESS)
      case Stored(checkpoint) => Some(checkpoint)
      case Unparsable => None
  }

  function SavedFile(file: File, memory: Checkpoint, save: Save): File {
    match save
    case Written => Stored(memory)
    case Untouched => file
    case Torn => Unparsable
  }

  function Start(file: File, requests: seq<Request>, o: Outside): Process {
    match LoadState(file, o.readable)
    case None => Stopped(file, requests, [], Failed)
    case Some(checkpoint) =>
      if !o.teeIdOk then Stopped(file, requests, [], Failed)
      else Running(checkpoint, ZERO_WORD, ZERO_WORD, file, requests, [], o.lifetime)
  }

  /** One operation of the process, unless it has been killed. */
  function SaveStep(p: Process, save: Save): Process
    requires p.Running?
  {
    if p.lifetime == 0 then Stopped(p.file, p.requests, p.saves, Killed)
    else p.(file := SavedFile(p.file, p.memory, save), saves := p.saves + [save], lifetime := p.lifetime - 1)
  }

  /** Steps r and R: skip with the recorded id, or request an attestation and record it. */
  function AttestationStep(p: Process, command: string, letter: char, renewed: bool, answer: Answer, save: Save): Process {
    if p.Stopped? || letter !in command then p
    else if letter in p.memory.completed then p.(attestation := p.memory.attestation)
    else if p.lifetime == 0 then Stopped(p.file, p.requests, p.saves, Killed)
    else
      match answer
      case Refused => Stopped(p.file, p.requests, p.saves, Failed)
      case Lost(stop) => Stopped(p.file, p.requests + [Attestation(renewed, None)], p.saves, stop)
      case Answered(id) =>
        SaveStep(p.(memory := Checkpoint(p.memory.completed + [letter], id, p.memory.check),
                    attestation := id,
                    requests := p.requests + [Attestation(renewed, Some(id))],
                    lifetime := p.lifetime - 1), save)
  }

  /** Step a: skip with the recorded check, or request an availability check and record it. */
  function CheckStep(p: Process, command: string, argument: Word, o: Outside): Process {
    if p.Stopped? then p
    else if 'a' !in command then p.(check := argument)
    else if 'a' in p.memory.completed then p.(check := p.memory.check)
    else if p.lifetime == 0 then Stopped(p.file, p.requests, p.saves, Killed)
    else if !o.inSync then Stopped(p.file, p.requests, p.saves, Failed)
    else
      match o.checked
      case Refused => Stopped(p.file, p.requests, p.saves, Failed)
      case Lost(stop) =>
        Stopped(p.file, p.requests + [AvailabilityCheck(p.attestation, None, p.memory.attestation)], p.saves, stop)
      case Answered(id) =>
        SaveStep(p.(memory := Checkpoint(p.memory.completed + ['a'], p.memory.attestation, id),
                    check := id,
                    requests := p.requests + [AvailabilityCheck(p.attestation, Some(id), p.memory.attestation)],
                    lifetime := p.lifetime - 1), o.saveCheck)
  }

  function ProductionStep(p: Process, command: string, o: Outside): Process {
    if p.Stopped? || 'p' !in command then p
    else if p.lifetime == 0 then Stopped(p.file, p.requests, p.saves, Killed)
    else if !o.proofReady then Stopped(p.file, p.requests, p.saves, Failed)
    else if o.status == Some(TEE_STATUS_PRODUCTION) then p.(lifetime := p.lifetime - 1)
    else
      var sent := p.(requests := p.requests + [ToProduction(p.check, p.memory.check)], lifetime := p.lifetime - 1);
      if o.produced then sent else Stopped(sent.file, sent.requests, sent.saves, Failed)
  }

  function Finish(p: Process, o: Outside): Process {
    if p.Stopped? then p
    else if p.lifetime == 0 then Stopped(p.file, p.requests, p.saves, Killed)
    else Stopped(if o.removed then Missing else p.file, p.requests, p.saves, Done)
  }

  function AfterR(file: File, requests: seq<Request>, command: string, o: Outside): Process {
    AttestationStep(Start(file, requests, o), command, 'r', o.registered, o.attested, o.saveR)
  }

  function AfterAgain(file: File, requests: seq<Request>, command: string, o: Outside): Process {
    AttestationStep(AfterR(file, requests, command, o), command, 'R', true, o.attestedAgain, o.saveAgain)
  }

  function RunOnce(file: File, requests: seq<Request>, command: string, argument: Word, o: Outside): (p: Process)
    ensures p.Stopped?
  {
    Finish(ProductionStep(CheckStep(AfterAgain(file, requests, command, o), command, argument, o), command, o), o)
  }

  predicate Clears(o: Outside) {
    !o.resume && o.cleared
  }

  function FileAtStart(file: File, o: Outside): File {
    if Clears(o) then Missing else file
  }

  /** One invocation of the command line tool. */
  function Invoke(file: File, requests: seq<Request>, command: string, argument: Word, o: Outside): (p: Process)
    ensures p.Stopped?
  {
    RunOnce(FileAtStart(file, o), requests, command, argument, o)
  }

  // ---- the procedure itself

  class Node {
    var file: File
    ghost var requests: seq<Request>
    ghost var saves: seq<Save>

    constructor ()
      ensures file == Missing && requests == []
    {
      file, requests, saves := Missing, [], [];
    }

    method SaveState(state: Checkpoint, save: Save)
      modifies this`file, this`saves
      ensures file == SavedFile(old(file), state, save) && saves == old(saves) + [save]
    {
      saves := saves + [save];
      match save
      case Written => file := Stored(state);
      case Untouched =>
      case Torn => file := Unparsable;
    }

    /** The run in progress over this file, or how it stopped. */
    ghost function Now(state: Checkpoint, attestation: Word, check: Word, lifetime: nat, stopped: Option<Outcome>): Process
      reads this
    {
      match stopped
      case None => Running(state, attestation, check, file, requests, saves, lifetime)
      case Some(outcome) => Stopped(file, requests, saves, outcome)
    }

    /** One attestation block of RegisterNode, r or R. */
    method Attest(
      command: string, letter: char, renewed: bool, answer: Answer, save: Save,
      loaded: Checkpoint, held: Word, life: nat)
      returns (state: Checkpoint, teeAttestInstructionID: Word, lifetime: nat, stopped: Option<Outcome>)
      modifies this
      ensures AttestationStep(old(Now(loaded, held, ZERO_WORD, life, None)), command, letter, renewed, answer, save)
              == Now(state, teeAttestInstructionID, ZERO_WORD, lifetime, stopped)
    {
      state, teeAttestInstructionID, lifetime, stopped := loaded, held, life, None;
      if letter in command {
        if letter in state.completed {
          teeAttestInstructionID := state.attestation;
        } else {
          if lifetime == 0 { stopped := Some(Killed); return; }
          if answer.Refused? { stopped := Some(Failed); return; }
          if answer.Lost? {
            requests := requests + [Attestation(renewed, None)];
            stopped := Some(answer.stop);
            return;
          }
          teeAttestInstructionID := answer.id;
          requests := requests + [Attestation(renewed, Some(teeAttestInstructionID))];
          lifetime := lifetime - 1;
          state := Checkpoint(state.completed + [letter], teeAttestInstructionID, state.check);
          if lifetime == 0 { stopped := Some(Killed); return; }
          SaveState(state, save);
          lifetime := lifetime - 1;
        }
      }
    }

    /** The availability-check block. */
    method Check(command: string, argument: Word, o: Outside, loaded: Checkpoint, attestation: Word, life: nat)
      returns (state: Checkpoint, instructionID: Word, lifetime: nat, stopped: Option<Outcome>)
      modifies this
      ensures CheckStep(old(Now(loaded, attestation, ZERO_WORD, life, None)), command, argument, o)
              == Now(state, attestation, instructionID, lifetime, stopped)
    {
      state, instructionID, lifetime, stopped := loaded, ZERO_WORD, life, None;
      if 'a' in command {
        if 'a' in state.completed {
          instructionID := state.check;
        } else {
          if lifetime == 0 { stopped := Some(Killed); return; }
          if !o.inSync || o.checked.Refused? { stopped := Some(Failed); return; }
          if o.checked.Lost? {
            requests := requests + [AvailabilityCheck(attestation, None, state.attestation)];
            stopped := Some(o.checked.stop);
            return;
          }
          instructionID := o.checked.id;
          requests := requests + [AvailabilityCheck(attestation, Some(instructionID), state.attestation)];
          lifetime := lifetime - 1;
          state := Checkpoint(state.completed + ['a'], state.attestation, instructionID);
          if lifetime == 0 { stopped := Some(Killed); return; }
          SaveState(state, o.saveCheck);
          lifetime := lifetime - 1;
        }
      } else {
        instructionID := argument;
      }
    }

    method RegisterNode(command: string, argument: Word, o: Outside) returns (outcome: Outcome)
      modifies this
      ensures RunOnce(old(file), old(requests), command, argument, o) == Stopped(file, requests, saves, outcome)
    {
      saves := [];
      hide RunOnce, AttestationStep, CheckStep;
      StoppedIsFinal(file, requests, command, argument, o);
      var loaded := LoadState(file, o.readable);
      if loaded.None? || !o.teeIdOk {
        return Failed;
      }
      var state, teeAttestInstructionID, lifetime, stopped :=
        Attest(command, 'r', o.registered, o.attested, o.saveR, loaded.value, ZERO_WORD, o.lifetime);
      if stopped.Some? { return stopped.value; }
      state, teeAttestInstructionID, lifetime, stopped :=
        Attest(command, 'R', true, o.attestedAgain, o.saveAgain, state, teeAttestInstructionID, lifetime);
      if stopped.Some? { return stopped.value; }
      var instructionID;
      state, instructionID, lifetime, stopped := Check(command, argument, o, state, teeAttestInstructionID, lifetime);
      if stopped.Some? { return stopped.value; }
      if 'p' in command {
        if lifetime == 0 { return Killed; }
        if !o.proofReady { return Failed; }
        lifetime := lifetime - 1;
        if o.status != Some(TEE_STATUS_PRODUCTION) {
          requests := requests + [ToProduction(instructionID, state.check)];
          if !o.produced { return Failed; }
        }
      }
      if lifetime == 0 { return Killed; }
      if o.removed {
        file := Missing;
      }
      return Done;
    }

    /** The command line tool: unless asked to resume it first removes the old checkpoint. */
    method RegisterTee(command: string, argument: Word, o: Outside) returns (outcome: Outcome)
      modifies this
      ensures Invoke(old(file), old(requests), command, argument, o) == Stopped(file, requests, saves, outcome)
    {
      if !o.resume && o.cleared {
        file := Missing;
      }
      outcome := RegisterNode(command, argument, o);
    }
  }

  /** A process that has stopped takes no further step. */
  lemma StoppedIsFinal(file: File, requests: seq<Request>, command: string, argument: Word, o: Outside)
    ensures var start := Start(file, requests, o);
            var afterR := AttestationStep(start, command, 'r', o.registered, o.attested, o.saveR);
            var again := AttestationStep(afterR, command, 'R', true, o.attestedAgain, o.saveAgain);
            var checked := CheckStep(again, command, argument, o);
            var sent := ProductionStep(checked, command, o);
            && (start.Stopped? ==> RunOnce(file, requests, command, argument, o) == start)
            && (afterR.Stopped? ==> RunOnce(file, requests, command, argument, o) == afterR)
            && (again.Stopped? ==> RunOnce(file, requests, command, argument, o) == again)
            && (checked.Stopped? ==> RunOnce(file, requests, command, argument, o) == checked)
            && RunOnce(file, requests, command, argument, o) == Finish(sent, o)
  {
    hide SaveStep, LoadState;
  }

  // ---- any number of runs of one command

  /** The steps a command can complete, in the order RegisterNode takes them. */
  function Plan(command: string): string {
    Letters('r' in command, 'R' in command, 'a' in command)
  }

  function Letters(r: bool, R: bool, a: bool): string {
    (if r then "r" else "") + (if R then "R" else "") + (if a then "a" else "")
  }

  /** What every checkpoint of a command is: a prefix of its plan, whose attestation id was
      issued for it, and whose check was requested with exactly that attestation id. */
  ghost predicate Sound(command: string, c: Checkpoint, requests: seq<Request>) {
    && c.completed <= Plan(command)
    && ('r' !in c.completed && 'R' !in c.completed ==> c.attestation == ZERO_WORD)
    && ('r' in c.completed || 'R' in c.completed ==> exists renewed :: Attestation(renewed, Some(c.attestation)) in requests)
    && ('a' in c.completed ==> AvailabilityCheck(c.attestation, Some(c.check), c.attestation) in requests)
  }

  /** Requests carry what was recorded when they were sent. */
  ghost predicate Faithful(command: string, requests: seq<Request>) {
    forall q :: q in requests ==>
      && (q.AvailabilityCheck? ==> q.attestation == q.recorded)
      && (q.ToProduction? && 'a' in command ==> q.check == q.recorded)
  }

  ghost predicate SoundFile(command: string, file: File, requests: seq<Request>) {
    (file.Stored? ==> Sound(command, file.checkpoint, requests)) && Faithful(command, requests)
  }

  ghost predicate SoundProcess(command: string, p: Process) {
    && SoundFile(command, p.file, p.requests)
    && (p.Running? ==> Sound(command, p.memory, p.requests))
  }

  lemma SoundWithMore(command: string, c: Checkpoint, requests: seq<Request>, more: seq<Request>)
    requires Sound(command, c, requests)
    ensures Sound(command, c, requests + more)
  {
    if 'r' in c.completed || 'R' in c.completed {
      var renewed :| Attestation(renewed, Some(c.attestation)) in requests;
      assert Attestation(renewed, Some(c.attestation)) in requests + more;
    }
  }

  lemma FaithfulWithMore(command: string, requests: seq<Request>, q: Request)
    requires Faithful(command, requests)
    requires q.AvailabilityCheck? ==> q.attestation == q.recorded
    requires q.ToProduction? && 'a' in command ==> q.check == q.recorded
    ensures Faithful(command, requests + [q])
  {
  }

  lemma SaveStepKeeps(command: string, p: Process, save: Save)
    requires p.Running? && SoundProcess(command, p)
    ensures SoundProcess(command, SaveStep(p, save))
  {
    hide Sound, Faithful;
  }

  /** A prefix of a plan is told by its letters, and holds every planned letter before its last. */
  lemma PrefixOf(r: bool, R: bool, a: bool, done: string)
    requires done <= Letters(r, R, a)
    ensures done == Letters('r' in done, 'R' in done, 'a' in done)
    ensures 'r' in done ==> r
    ensures 'R' in done ==> R && (r ==> 'r' in done)
    ensures 'a' in done ==> a && (r ==> 'r' in done) && (R ==> 'R' in done)
  {
    var plan := Letters(r, R, a);
    assert done == plan[..|done|];
    if |done| == 0 {
      assert done == "";
    } else if |done| == 1 {
      assert done == [plan[0]];
    } else if |done| == 2 {
      assert done == [plan[0], plan[1]];
    } else {
      assert done == [plan[0], plan[1], plan[2]];
    }
  }

  /** A step that is planned and not yet done, after the steps before it, is the next one. */
  lemma NextInPlan(command: string, done: string, letter: char)
    requires done <= Plan(command) && letter in command && letter !in done
    requires letter == 'r' || (letter == 'R' && ('r' in command ==> 'r' in done))
             || (letter == 'a' && ('r' in command ==> 'r' in done) && ('R' in command ==> 'R' in done))
    ensures done + [letter] <= Plan(command)
    ensures letter != 'a' ==> 'a' !in done
  {
    PrefixOf('r' in command, 'R' in command, 'a' in command, done);
  }

  /** Where a running process is in its plan once the attestation steps are behind it. */
  ghost predicate Past(command: string, p: Process, letter: char) {
    p.Running? && letter in command ==> letter in p.memory.completed && p.attestation == p.memory.attestation
  }

  lemma AttestationStepKeeps(
    command: string, p: Process, letter: char, renewed: bool, answer: Answer, save: Save)
    requires SoundProcess(command, p) && (letter == 'r' || letter == 'R')
    requires letter == 'R' ==> Past(command, p, 'r')
    requires p.Running? && letter == 'r' ==> p.attestation == ZERO_WORD
    requires p.Running? && letter == 'R' && 'r' !in command ==> p.attestation == ZERO_WORD
    ensures var after := AttestationStep(p, command, letter, renewed, answer, save);
            && SoundProcess(command, after)
            && Past(command, after, letter)
            && (letter == 'R' ==> Past(command, after, 'r'))
            && (after.Running? && letter !in command ==> after.attestation == p.attestation)
            && (after.Running? ==> after.requests == p.requests || 'r' in after.memory.completed || 'R' in after.memory.completed)
  {
    if p.Running? && letter in command && letter !in p.memory.completed && p.lifetime > 0 && !answer.Refused? {
      var q := Attestation(renewed, if answer.Answered? then Some(answer.id) else None);
      FaithfulWithMore(command, p.requests, q);
      if p.file.Stored? {
        SoundWithMore(command, p.file.checkpoint, p.requests, [q]);
      }
      if answer.Lost? {
        return;
      }
      var id := answer.id;
      NextInPlan(command, p.memory.completed, letter);
      var sent := p.(memory := Checkpoint(p.memory.completed + [letter], id, p.memory.check), attestation := id,
                     requests := p.requests + [q], lifetime := p.lifetime - 1);
      assert q in sent.requests;
      assert Sound(command, sent.memory, sent.requests);
      SaveStepKeeps(command, sent, save);
    }
  }

  /** Between runs and through every kill, failed save and resumed run of one command. */
  lemma RunKeepsSound(file: File, requests: seq<Request>, command: string, argument: Word, o: Outside)
    requires SoundFile(command, file, requests)
    ensures var p := RunOnce(file, requests, command, argument, o); SoundFile(command, p.file, p.requests)
  {
    var start := Start(file, requests, o);
    assert SoundProcess(command, start);
    AttestationStepKeeps(command, start, 'r', o.registered, o.attested, o.saveR);
    var afterR := AfterR(file, requests, command, o);
    AttestationStepKeeps(command, afterR, 'R', true, o.attestedAgain, o.saveAgain);
    var again := AfterAgain(file, requests, command, o);
    AttestationIsRecorded(command, again);
    CheckStepKeeps(command, again, argument, o);
    var checked := CheckStep(again, command, argument, o);
    ProductionStepKeeps(command, checked, o);
  }

  lemma AttestationIsRecorded(command: string, p: Process)
    requires SoundProcess(command, p) && Past(command, p, 'r') && Past(command, p, 'R')
    requires p.Running? && 'r' !in command && 'R' !in command ==> p.attestation == ZERO_WORD
    ensures p.Running? ==> p.attestation == p.memory.attestation
  {
    if p.Running? && 'r' !in command && 'R' !in command {
      PrefixOf('r' in command, 'R' in command, 'a' in command, p.memory.completed);
    }
  }

  lemma CheckStepKeeps(command: string, p: Process, argument: Word, o: Outside)
    requires SoundProcess(command, p) && Past(command, p, 'r') && Past(command, p, 'R')
    requires p.Running? ==> p.attestation == p.memory.attestation
    ensures var after := CheckStep(p, command, argument, o);
            SoundProcess(command, after)
            && (after.Running? && 'a' in command ==> after.check == after.memory.check)
  {
    if p.Running? && 'a' in command && 'a' !in p.memory.completed && p.lifetime > 0 && o.inSync && !o.checked.Refused? {
      var q := AvailabilityCheck(p.attestation, if o.checked.Answered? then Some(o.checked.id) else None, p.memory.attestation);
      FaithfulWithMore(command, p.requests, q);
      if p.file.Stored? {
        SoundWithMore(command, p.file.checkpoint, p.requests, [q]);
      }
      if o.checked.Lost? {
        return;
      }
      var id := o.checked.id;
      NextInPlan(command, p.memory.completed, 'a');
      SoundWithMore(command, p.memory, p.requests, [q]);
      var sent := p.(memory := Checkpoint(p.memory.completed + ['a'], p.memory.attestation, id), check := id,
                     requests := p.requests + [q], lifetime := p.lifetime - 1);
      assert Sound(command, sent.memory, sent.requests);
      SaveStepKeeps(command, sent, o.saveCheck);
    }
  }

  lemma ProductionStepKeeps(command: string, p: Process, o: Outside)
    requires SoundProcess(command, p)
    requires p.Running? && 'a' in command ==> p.check == p.memory.check
    ensures SoundProcess(command, ProductionStep(p, command, o))
  {
    if p.Running? && 'p' in command && p.lifetime > 0 && o.proofReady && o.status != Some(TEE_STATUS_PRODUCTION) {
      var q := ToProduction(p.check, p.memory.check);
      FaithfulWithMore(command, p.requests, q);
      SoundWithMore(command, p.memory, p.requests, [q]);
      if p.file.Stored? {
        SoundWithMore(command, p.file.checkpoint, p.requests, [q]);
      }
    }
  }

  /** The file and the requests after any number of invocations with one command. */
  function Runs(file: File, requests: seq<Request>, command: string, argument: Word, outsides: seq<Outside>): (File, seq<Request>)
    decreases |outsides|
  {
    if outsides == [] then (file, requests)
    else
      var (before, sent) := Runs(file, requests, command, argument, outsides[..|outsides| - 1]);
      var p := Invoke(before, sent, command, argument, outsides[|outsides| - 1]);
      (p.file, p.requests)
  }

  lemma {:induction false} RunsKeepSound(
    file: File, requests: seq<Request>, command: string, argument: Word, outsides: seq<Outside>)
    requires SoundFile(command, file, requests)
    ensures var (f, q) := Runs(file, requests, command, argument, outsides); SoundFile(command, f, q)
    decreases |outsides|
  {
    hide Sound, Faithful, RunOnce;
    if outsides != [] {
      var front, o := outsides[..|outsides| - 1], outsides[|outsides| - 1];
      RunsKeepSound(file, requests, command, argument, front);
      var (before, sent) := Runs(file, requests, command, argument, front);
      RunKeepsSound(FileAtStart(before, o), sent, command, argument, o);
    }
  }

  /** From no file, with any kills, lost transactions, failed saves, re-runs and fresh starts: a
      readable checkpoint holds a prefix of the plan and the check it records was requested with the
      attestation it records; every check ever requested used the attestation recorded then, and
      every proof sent to production was for the check recorded then. */
  lemma ResumesConsistently(command: string, argument: Word, outsides: seq<Outside>)
    ensures var (file, requests) := Runs(Missing, [], command, argument, outsides);
            && (file.Stored? ==> file.checkpoint.completed <= Plan(command))
            && (file.Stored? && command == "rRap" ==> file.checkpoint.completed <= "rRa")
            && (file.Stored? && 'a' in file.checkpoint.completed ==>
                  AvailabilityCheck(file.checkpoint.attestation, Some(file.checkpoint.check), file.checkpoint.attestation)
                  in requests)
            && (forall q :: q in requests && q.AvailabilityCheck? ==> q.attestation == q.recorded)
            && ('a' in command ==> forall q :: q in requests && q.ToProduction? ==> q.check == q.recorded)
  {
    hide Runs;
    RunsKeepSound(Missing, [], command, argument, outsides);
  }

  // ---- what a changed command breaks

  /** Run with a command other than the one the checkpoint came from, a new availability check
      uses the recorded attestation exactly when the command attests (r or R), or nothing was
      recorded: a lone `a` forgets the checkpoint's attestation. */
  lemma CheckUsesRecordedAttestationIff(file: File, command: string, argument: Word, o: Outside)
    requires file.Stored? && o.readable && o.teeIdOk && 'a' in command && 'a' !in file.checkpoint.completed
    requires var p := AfterAgain(file, [], command, o); p.Running? && p.lifetime > 0
    requires o.inSync && !o.checked.Refused?
    ensures var p := AfterAgain(file, [], command, o);
            var after := CheckStep(p, command, argument, o);
            && |after.requests| == |p.requests| + 1
            && var q := after.requests[|p.requests|];
               && q.AvailabilityCheck?
               && (q.attestation == q.recorded <==>
                     'r' in command || 'R' in command || file.checkpoint.attestation == ZERO_WORD)
  {
    var afterR := AfterR(file, [], command, o);
    assert afterR.Running?;
    assert 'r' in command ==> afterR.attestation == afterR.memory.attestation;
  }

  /** The smallest case: a checkpoint with an attestation, run with "a". */
  lemma LoneCheckForgetsAttestation(x: Word, id: Word, o: Outside)
    requires x != ZERO_WORD && o.readable && o.teeIdOk && o.inSync && o.checked == Answered(id) && o.lifetime > 2
    ensures AvailabilityCheck(ZERO_WORD, Some(id), x) in
              RunOnce(Stored(Checkpoint("r", x, ZERO_WORD)), [], "a", ZERO_WORD, o).requests
  {
    var p := AfterAgain(Stored(Checkpoint("r", x, ZERO_WORD)), [], "a", o);
    assert p.memory.completed == "r" && 'a' !in "r";
    var checked := CheckStep(p, "a", ZERO_WORD, o);
    assert checked.requests[0] == AvailabilityCheck(ZERO_WORD, Some(id), x);
  }
}
