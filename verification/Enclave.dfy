/** The extension inside the enclave, on values: what one action does to the models it holds
    and what it answers; and what the answers of a whole run can depend on. */
module Enclave {
  import opened Wrappers
  import opened Bytes
  import opened Scoring
  import DecisionCodec

  type Memory = map<Word, Model>

  datatype Command = RegisterModel | Evaluate | Unsupported(code: Word)

  /** What a POLICY or foreign instruction shows publicly. */
  datatype Action = Action(id: Word, tag: Bytes, isPolicy: bool, command: Command, message: Bytes)

  /** What decrypting and parsing a registration message gives: the only secret input. */
  datatype Opened =
    | DecryptFailed(detail: string)
    | InvalidPayload
    | TrailingData
    | Plain(policyId: Word, model: Model)

  datatype Failure =
    | EmptyMessage
    | DecryptionFailed(detail: string)
    | PayloadInvalid
    | PayloadHasTrailingData
    | PolicyIdZero
    | Rejected(reason: Rejection)
    | BadRequest(codec: DecisionCodec.CodecError)
    | NoModel(policyId: Word)
    | NotScored(score: ScoreError)
    | NotEncoded(codec: DecisionCodec.CodecError)

  datatype Log = Fine | Error(failure: Failure)

  datatype ActionResult = ActionResult(
    id: Word, tag: Bytes, command: Command, data: Bytes, status: byte, log: Log)

  datatype Reply = NotImplemented | Answer(result: ActionResult)

  // ---- one action

  /** The registration request carried by an opened message, or why it is refused. */
  function Registration(secret: Opened): Result<(Word, Model), Failure> {
    match secret
    case DecryptFailed(detail) => Err(DecryptionFailed(detail))
    case InvalidPayload => Err(PayloadInvalid)
    case TrailingData => Err(PayloadHasTrailingData)
    case Plain(policyId, model) =>
      if policyId == ZERO_WORD then Err(PolicyIdZero)
      else if !Valid(model) then Err(Rejected(Validate(model).value))
      else Ok((policyId, model))
  }

  function Register(memory: Memory, message: Bytes, secret: Opened): (Memory, Result<Bytes, Failure>) {
    if message == [] then (memory, Err(EmptyMessage))
    else
      match Registration(secret)
      case Err(failure) => (memory, Err(failure))
      case Ok((policyId, model)) => (memory[policyId := model], Ok([]))
  }

  function Decide(memory: Memory, message: Bytes): Result<Bytes, Failure> {
    if message == [] then Err(EmptyMessage)
    else
      match DecisionCodec.Decode(message)
      case Err(error) => Err(BadRequest(error))
      case Ok(request) =>
        if request.policyId !in memory then Err(NoModel(request.policyId))
        else
          match Score(memory[request.policyId], Some(request.value))
          case Err(error) => Err(NotScored(error))
          case Ok(payout) =>
            match DecisionCodec.Encode(request.policyId, Some(payout), request.payoutTo)
            case Err(error) => Err(NotEncoded(error))
            case Ok(data) => Ok(data)
  }

  /** The shape every action result has: data only on success, the failure only in the log. */
  function BuildResult(action: Action, outcome: Result<Bytes, Failure>): ActionResult {
    match outcome
    case Ok(data) => ActionResult(action.id, action.tag, action.command, data, 1, Fine)
    case Err(failure) => ActionResult(action.id, action.tag, action.command, [], 0, Error(failure))
  }

  function Process(memory: Memory, action: Action, secret: Opened): (Memory, Reply) {
    if !action.isPolicy then (memory, NotImplemented)
    else
      match action.command
      case RegisterModel =>
        var (after, outcome) := Register(memory, action.message, secret);
        (after, Answer(BuildResult(action, outcome)))
      case Evaluate => (memory, Answer(BuildResult(action, Decide(memory, action.message))))
      case Unsupported(_) => (memory, NotImplemented)
  }

  // ---- what every action keeps

  predicate AllValid(memory: Memory) {
    forall policyId :: policyId in memory ==> Valid(memory[policyId])
  }

  lemma ProcessKeepsModelsValid(memory: Memory, action: Action, secret: Opened)
    requires AllValid(memory)
    ensures AllValid(Process(memory, action, secret).0)
  {
  }

  /** A canonically encoded request for a registered policy always succeeds, and the decision
      names the same policy and recipient and an amount the sum insured and the floor allow;
      the enclave's decoder, the relayer's and the contract's all read exactly that. */
  lemma EvaluationSucceeds(memory: Memory, action: Action, secret: Opened, policyId: Word, rainfall: nat, payoutTo: Address)
    requires AllValid(memory) && policyId in memory && rainfall < UINT256_LIMIT
    requires action.isPolicy && action.command == Evaluate
    requires action.message == DecisionCodec.Layout(policyId, rainfall, payoutTo)
    ensures var model := memory[policyId];
            var amount := Payout(model, rainfall);
            var (after, reply) := Process(memory, action, secret);
            && after == memory
            && reply == Answer(ActionResult(action.id, action.tag, Evaluate,
                                            DecisionCodec.Layout(policyId, amount, payoutTo), 1, Fine))
            && DecisionCodec.Decode(reply.result.data) == Ok(DecisionCodec.Tuple(policyId, amount, payoutTo))
            && DecisionCodec.DecodeDecision(1, reply.result.data) == Ok(DecisionCodec.Tuple(policyId, amount, payoutTo))
            && DecisionCodec.AbiDecode(reply.result.data) == Ok(DecisionCodec.Tuple(policyId, amount, payoutTo))
            && amount <= model.sumInsured.value < UINT256_LIMIT
            && (amount == 0 || model.minPayout.value <= amount)
  {
    DecisionCodec.EncodedTupleReadsBackEverywhere(policyId, rainfall, payoutTo);
    PayoutBounds(memory[policyId], rainfall);
    DecisionCodec.EncodedTupleReadsBackEverywhere(policyId, Payout(memory[policyId], rainfall), payoutTo);
  }

  /** A result that claims success with 96 bytes of data can only come from scoring a held
      model: registrations answer with no data and failures with status 0. */
  lemma OnlyEvaluationsCarryDecisions(memory: Memory, action: Action, secret: Opened)
    requires AllValid(memory)
    requires var reply := Process(memory, action, secret).1;
             reply.Answer? && reply.result.status == 1 && |reply.result.data| == DecisionCodec.TUPLE_SIZE
    ensures action.isPolicy && action.command == Evaluate
    ensures DecisionCodec.Decode(action.message).Ok?
    ensures var request := DecisionCodec.Decode(action.message).value;
            && request.policyId in memory
            && Process(memory, action, secret).1.result.data
               == DecisionCodec.Layout(request.policyId, Payout(memory[request.policyId], request.value), request.payoutTo)
  {
    match action.command
    case RegisterModel =>
    case Unsupported(_) =>
    case Evaluate =>
      assert Decide(memory, action.message).Ok?;
      var request := DecisionCodec.Decode(action.message).value;
      PayoutBounds(memory[request.policyId], request.value);
  }

  /** What every answer looks like: it repeats the action's id, tag and command; it has status 1 and an
      empty log, or status 0, no data and a failure; a registration never carries data; and whatever is
      not a POLICY instruction of a known command is not answered and changes nothing. */
  lemma AnswersAreShaped(memory: Memory, action: Action, secret: Opened)
    ensures var (after, reply) := Process(memory, action, secret);
            && (reply.NotImplemented? <==> !action.isPolicy || action.command.Unsupported?)
            && (reply.NotImplemented? ==> after == memory)
            && (reply.Answer? ==>
                  var r := reply.result;
                  && r.id == action.id && r.tag == action.tag && r.command == action.command
                  && ((r.status == 1 && r.log == Fine) || (r.status == 0 && r.data == [] && r.log.Error?))
                  && (action.command == RegisterModel ==> r.data == [])
                  && (r.status == 0 || action.command == Evaluate ==> after == memory))
  {
  }

  /** A registration succeeds exactly when its message is there and opens to a non-zero policy and a
      valid model; then that policy has that model and every other policy what it had. */
  lemma RegistrationIff(memory: Memory, action: Action, secret: Opened)
    requires action.isPolicy && action.command == RegisterModel
    ensures var (after, reply) := Process(memory, action, secret);
            && reply.Answer?
            && (reply.result.status == 1 <==>
                  action.message != [] && secret.Plain? && secret.policyId != ZERO_WORD && Valid(secret.model))
            && (reply.result.status == 1 ==>
                  forall p :: p in after || p in memory || p == secret.policyId ==>
                    if p == secret.policyId then p in after && after[p] == secret.model
                    else p in after && p in memory && after[p] == memory[p])
  {
  }

  /** An evaluation succeeds exactly when its message is 96 bytes that name a policy with a model. */
  lemma EvaluationIff(memory: Memory, action: Action, secret: Opened)
    requires AllValid(memory) && action.isPolicy && action.command == Evaluate
    ensures var reply := Process(memory, action, secret).1;
            && reply.Answer?
            && (reply.result.status == 1 <==> |action.message| == 96 && action.message[..32] in memory)
  {
    if |action.message| == 96 && action.message[..32] in memory {
      var request := DecisionCodec.Decode(action.message).value;
      WordRoundTrip(action.message[32..64]);
      PayoutBounds(memory[request.policyId], request.value);
    }
  }

  /** Why an instruction fails: the first thing that is wrong with it. */
  lemma FailureIsTheFirst(memory: Memory, action: Action, secret: Opened)
    requires AllValid(memory) && action.isPolicy && !action.command.Unsupported?
    ensures var reply := Process(memory, action, secret).1;
            && reply.Answer?
            && var log := reply.result.log;
               && (log == Error(EmptyMessage) <==> action.message == [])
               && (action.command == RegisterModel && action.message != [] ==>
                     match secret
                     case DecryptFailed(detail) => log == Error(DecryptionFailed(detail))
                     case InvalidPayload => log == Error(PayloadInvalid)
                     case TrailingData => log == Error(PayloadHasTrailingData)
                     case Plain(p, model) =>
                       && (log == Error(PolicyIdZero) <==> p == ZERO_WORD)
                       && (p != ZERO_WORD && !Valid(model) ==> log == Error(Rejected(Validate(model).value))))
               && (action.command == Evaluate && action.message != [] ==>
                     && (log == Error(BadRequest(DecisionCodec.WrongLength(|action.message|))) <==> |action.message| != 96)
                     && (|action.message| == 96 ==>
                           (log == Error(NoModel(action.message[..32])) <==> action.message[..32] !in memory)))
  {
  }

  // ---- whole runs: what the answers depend on

  /** What reaches an enclave over its life: actions with their secret content, and restarts. */
  datatype Input = Act(action: Action, secret: Opened) | Restart

  /** What an observer sees of one input: its reply and the model count /state reports after it. */
  datatype Observation = Observation(reply: Reply, registeredModels: nat)

  function Step(memory: Memory, input: Input): (Memory, Reply) {
    match input
    case Act(action, secret) => Process(memory, action, secret)
    case Restart => (map[], NotImplemented)
  }

  function Observe(memory: Memory, inputs: seq<Input>): (seen: seq<Observation>)
    ensures |seen| == |inputs|
    decreases inputs
  {
    if inputs == [] then []
    else
      var (after, reply) := Step(memory, inputs[0]);
      [Observation(reply, |after|)] + Observe(after, inputs[1..])
  }

  /** All an input tells about a model: the verdict on a registration with the policy it is for,
      or the outcome of scoring the one reading that was asked about. */
  datatype Leak =
    | Nothing
    | Verdict(verdict: Result<Word, Failure>)
    | Scored(score: Result<int, ScoreError>)

  function LeakOf(memory: Memory, input: Input): Leak {
    match input
    case Restart => Nothing
    case Act(action, secret) =>
      if !action.isPolicy then Nothing
      else
        match action.command
        case Unsupported(_) => Nothing
        case RegisterModel =>
          if action.message == [] then Nothing
          else
            (match Registration(secret)
             case Ok((policyId, _)) => Verdict(Ok(policyId))
             case Err(failure) => Verdict(Err(failure)))
        case Evaluate =>
          var request := DecisionCodec.Decode(action.message);
          if request.Ok? && request.value.policyId in memory
          then Scored(Score(memory[request.value.policyId], Some(request.value.value)))
          else Nothing
  }

  function Leaks(memory: Memory, inputs: seq<Input>): seq<Leak>
    decreases inputs
  {
    if inputs == [] then []
    else [LeakOf(memory, inputs[0])] + Leaks(Step(memory, inputs[0]).0, inputs[1..])
  }

  /** The public part of an input. */
  datatype PublicInput = PublicAct(action: Action) | PublicRestart

  function Public(input: Input): PublicInput {
    match input
    case Act(action, _) => PublicAct(action)
    case Restart => PublicRestart
  }

  function PublicOf(inputs: seq<Input>): seq<PublicInput> {
    seq(|inputs|, i requires 0 <= i < |inputs| => Public(inputs[i]))
  }

  /** An observer that never holds a model: it keeps only which policies are registered and
      rebuilds every answer from the public input and what it leaks. */
  function SimulateStep(registered: set<Word>, input: PublicInput, leak: Leak): (set<Word>, Reply) {
    match input
    case PublicRestart => ({}, NotImplemented)
    case PublicAct(action) =>
      if !action.isPolicy then (registered, NotImplemented)
      else
        match action.command
        case Unsupported(_) => (registered, NotImplemented)
        case RegisterModel =>
          if action.message == [] then (registered, Answer(BuildResult(action, Err(EmptyMessage))))
          else if leak.Verdict? && leak.verdict.Ok? then
            (registered + {leak.verdict.value}, Answer(BuildResult(action, Ok([]))))
          else if leak.Verdict? then (registered, Answer(BuildResult(action, Err(leak.verdict.error))))
          else (registered, NotImplemented)
        case Evaluate => (registered, Answer(BuildResult(action, SimulateDecision(registered, action.message, leak))))
  }

  function SimulateDecision(registered: set<Word>, message: Bytes, leak: Leak): Result<Bytes, Failure> {
    if message == [] then Err(EmptyMessage)
    else
      match DecisionCodec.Decode(message)
      case Err(error) => Err(BadRequest(error))
      case Ok(request) =>
        if request.policyId !in registered || !leak.Scored? then Err(NoModel(request.policyId))
        else
          match leak.score
          case Err(error) => Err(NotScored(error))
          case Ok(payout) =>
            match DecisionCodec.Encode(request.policyId, Some(payout), request.payoutTo)
            case Err(error) => Err(NotEncoded(error))
            case Ok(data) => Ok(data)
  }

  function Simulate(registered: set<Word>, inputs: seq<PublicInput>, leaks: seq<Leak>): seq<Observation>
    requires |inputs| == |leaks|
    decreases inputs
  {
    if inputs == [] then []
    else
      var (after, reply) := SimulateStep(registered, inputs[0], leaks[0]);
      [Observation(reply, |after|)] + Simulate(after, inputs[1..], leaks[1..])
  }

  lemma SimulatedStepMatches(memory: Memory, input: Input)
    ensures var (after, reply) := Step(memory, input);
            SimulateStep(memory.Keys, Public(input), LeakOf(memory, input)) == (after.Keys, reply)
  {
    match input
    case Restart =>
      assert Step(memory, input).0.Keys == {};
    case Act(action, secret) =>
      if action.isPolicy && action.command == Evaluate {
        assert SimulateDecision(memory.Keys, action.message, LeakOf(memory, input)) == Decide(memory, action.message);
      } else if action.isPolicy && action.command == RegisterModel && action.message != [] {
        var registration := Registration(secret);
        if registration.Ok? {
          var (policyId, model) := registration.value;
          assert memory[policyId := model].Keys == memory.Keys + {policyId};
        }
      }
  }

  lemma KeysCount(memory: Memory)
    ensures |memory| == |memory.Keys|
  {
  }

  lemma {:induction false} LeaksMatchInputs(memory: Memory, inputs: seq<Input>)
    ensures |Leaks(memory, inputs)| == |inputs|
    decreases inputs
  {
    if inputs != [] {
      LeaksMatchInputs(Step(memory, inputs[0]).0, inputs[1..]);
    }
  }

  /** Every action result and every /state answer of a run is computed from the public inputs
      and the leaks alone: the models enter through nothing else. */
  lemma {:induction false} ObservationsAreSimulated(memory: Memory, inputs: seq<Input>)
    ensures |Leaks(memory, inputs)| == |inputs|
    ensures Observe(memory, inputs) == Simulate(memory.Keys, PublicOf(inputs), Leaks(memory, inputs))
    decreases inputs
  {
    LeaksMatchInputs(memory, inputs);
    if inputs != [] {
      var after := Step(memory, inputs[0]).0;
      SimulatedStepMatches(memory, inputs[0]);
      KeysCount(after);
      ObservationsAreSimulated(after, inputs[1..]);
      assert PublicOf(inputs)[1..] == PublicOf(inputs[1..]);
    }
  }

  /** Two enclaves started empty and fed the same public inputs, with different secret models
      that draw the same verdicts and score the asked readings alike, cannot be told apart. */
  lemma RunsAreIndistinguishable(one: seq<Input>, other: seq<Input>)
    requires PublicOf(one) == PublicOf(other)
    requires Leaks(map[], one) == Leaks(map[], other)
    ensures Observe(map[], one) == Observe(map[], other)
  {
    ObservationsAreSimulated(map[], one);
    ObservationsAreSimulated(map[], other);
  }

  /** The models held after some inputs. */
  function MemoryAfter(memory: Memory, inputs: seq<Input>): Memory
    decreases |inputs|
  {
    if inputs == [] then memory
    else Step(MemoryAfter(memory, inputs[..|inputs| - 1]), inputs[|inputs| - 1]).0
  }

  lemma {:induction false} FirstInputFirst(memory: Memory, inputs: seq<Input>)
    requires inputs != []
    ensures MemoryAfter(memory, inputs) == MemoryAfter(Step(memory, inputs[0]).0, inputs[1..])
    decreases |inputs|
  {
    var front := inputs[..|inputs| - 1];
    if front == [] {
      assert inputs[1..] == [];
      assert MemoryAfter(memory, []) == memory;
    } else {
      FirstInputFirst(memory, front);
      assert inputs[1..][..|inputs[1..]| - 1] == front[1..];
    }
  }

  /** What is seen of input i: the answer to it by the memory so far, and how many models are held
      after it, which is none after a restart. */
  lemma {:induction false} ObservationAt(memory: Memory, inputs: seq<Input>, i: nat)
    requires i < |inputs|
    ensures var before, after := MemoryAfter(memory, inputs[..i]), MemoryAfter(memory, inputs[..i + 1]);
            && Observe(memory, inputs)[i].registeredModels == |after|
            && (inputs[i].Act? ==>
                  && Observe(memory, inputs)[i].reply == Process(before, inputs[i].action, inputs[i].secret).1
                  && after == Process(before, inputs[i].action, inputs[i].secret).0)
            && (inputs[i].Restart? ==> after == map[])
    decreases inputs
  {
    hide Process;
    assert inputs[..i + 1][..i] == inputs[..i];
    if i > 0 {
      ObservationAt(Step(memory, inputs[0]).0, inputs[1..], i - 1);
      FirstInputFirst(memory, inputs[..i]);
      FirstInputFirst(memory, inputs[..i + 1]);
      assert inputs[..i][1..] == inputs[1..][..i - 1] && inputs[..i + 1][1..] == inputs[1..][..i];
    } else {
      assert inputs[..0] == [] && MemoryAfter(memory, []) == memory;
      assert inputs[..1] == [inputs[0]];
    }
  }
}
