/** The extension as it runs: big integers are mutable objects, models share them with the
    map they are stored in, and every method is tied to the value-level Enclave. */
module ExtensionObjects {
  import opened Wrappers
  import opened Bytes
  import opened Scoring
  import opened Enclave
  import DecisionCodec

  /** An arbitrary-precision integer updated in place by its own operations. */
  class BigInt {
    var value: int

    constructor (v: int)
      ensures value == v
    {
      value := v;
    }

    method Sub(x: BigInt, y: BigInt)
      modifies this
      ensures value == old(x.value) - old(y.value)
    {
      value := x.value - y.value;
    }

    method Mul(x: BigInt, y: BigInt)
      modifies this
      ensures value == old(x.value) * old(y.value)
    {
      value := x.value * y.value;
    }

    method Div(x: BigInt, y: BigInt)
      requires y.value != 0
      modifies this
      ensures value == old(x.value) / old(y.value)
    {
      value := x.value / y.value;
    }

    method Set(x: BigInt)
      modifies this
      ensures value == old(x.value)
    {
      value := x.value;
    }
  }

  /** A model as stored: two of its parameters are references, and copying it copies those. */
  datatype ModelParameters = ModelParameters(
    trigger: uint64, exit: uint64, sumInsured: BigInt?, factorBps: uint64, minPayout: BigInt?)
  {
    function Refs(): set<BigInt> {
      (if sumInsured == null then {} else {sumInsured}) + (if minPayout == null then {} else {minPayout})
    }

    function Values(): Model
      reads Refs()
    {
      Model(trigger, exit,
            if sumInsured == null then None else Some(sumInsured.value),
            factorBps,
            if minPayout == null then None else Some(minPayout.value))
    }
  }

  function ReadingOf(rainfall: BigInt?): Option<int>
    reads rainfall
  {
    if rainfall == null then None else Some(rainfall.value)
  }

  /** Scoring on the heap. It has no modifies clause, so nothing allocated before the call can
      change, neither the model it is handed nor the shared basis-point constant, although the
      shortfall may alias the span and the product is divided and overwritten in place. The
      answer is a fresh object, never one the model holds. */
  method EvaluatePayout(model: ModelParameters, rainfall: BigInt?, bps: BigInt)
    returns (payout: BigInt?, error: Option<ScoreError>)
    requires bps.value == BPS
    ensures match Score(model.Values(), ReadingOf(rainfall))
            case Ok(amount) => error.None? && payout != null && fresh(payout) && payout.value == amount
            case Err(reason) => payout == null && error == Some(reason)
  {
    if rainfall == null || rainfall.value < 0 {
      return null, Some(RainfallNegative);
    }
    var rejection := Validate(model.Values());
    if rejection.Some? {
      return null, Some(ModelRejected(rejection.value));
    }
    var trigger := new BigInt(model.trigger);
    var exit := new BigInt(model.exit);
    if rainfall.value >= trigger.value {
      payout := new BigInt(0);
      return payout, None;
    }
    payout := AlongTheRamp(model, rainfall, trigger, exit, bps);
    hide Ramp, Shortfall, Validate;
    ghost var ramp := payout.value;
    if payout.value > model.sumInsured.value {
      payout.Set(model.sumInsured);
    }
    assert payout.value == Min(ramp, model.sumInsured.value);
    if payout.value < model.minPayout.value {
      payout := new BigInt(0);
      return payout, None;
    }
    return payout, None;
  }

  /** The part of evaluatePayout from the span to the truncated quotient: the shortfall may become
      the span itself, and the product is multiplied and divided in place. */
  method AlongTheRamp(model: ModelParameters, rainfall: BigInt, trigger: BigInt, exit: BigInt, bps: BigInt)
    returns (payout: BigInt)
    requires Valid(model.Values()) && rainfall.value < model.trigger && bps.value == BPS
    requires trigger.value == model.trigger && exit.value == model.exit
    ensures fresh(payout) && payout.value == Ramp(model.Values(), rainfall.value)
  {
    ghost var m := model.Values();
    var span := new BigInt(0);
    span.Sub(trigger, exit);
    var shortfall := new BigInt(0);
    shortfall.Sub(trigger, rainfall);
    if shortfall.value > span.value {
      shortfall := span;
    }
    assert shortfall.value == Shortfall(m, rainfall.value);
    payout := new BigInt(0);
    payout.Mul(model.sumInsured, shortfall);
    var factor := new BigInt(model.factorBps);
    payout.Mul(payout, factor);
    var divisor := new BigInt(0);
    divisor.Mul(span, bps);
    assert divisor.value == (m.trigger - m.exit) * BPS;
    payout.Div(payout, divisor);
  }

  /** A registration message after decryption and parsing, its big integers freshly parsed. */
  datatype OpenedMessage =
    | CannotDecrypt(detail: string)
    | CannotParse
    | MoreAfterPayload
    | Parsed(policyId: Word, model: ModelParameters)
  {
    function Refs(): set<BigInt> {
      if Parsed? then model.Refs() else {}
    }

    function Values(): Opened
      reads Refs()
    {
      match this
      case CannotDecrypt(detail) => DecryptFailed(detail)
      case CannotParse => InvalidPayload
      case MoreAfterPayload => TrailingData
      case Parsed(policyId, model) => Plain(policyId, model.Values())
    }
  }

  class Extension {
    var models: map<Word, ModelParameters>
    const bps: BigInt

    constructor ()
      ensures Valid() && Memory() == map[]
    {
      models := map[];
      bps := new BigInt(BPS);
    }

    ghost predicate Valid()
      reads this, bps
    {
      bps.value == BPS
    }

    ghost function Refs(): set<BigInt>
      reads this
    {
      set policyId, b | policyId in models && b in models[policyId].Refs() :: b
    }

    /** The models held, as values. */
    ghost function Memory(): Memory
      reads this, Refs()
    {
      map policyId | policyId in models :: models[policyId].Values()
    }

    /** What /state reports: a count and nothing else. */
    method RegisteredModels() returns (count: nat)
      ensures count == |Memory()|
    {
      assert models.Keys == Memory().Keys;
      assert |models| == |models.Keys| && |Memory()| == |Memory().Keys|;
      count := |models|;
    }

    method ProcessRegisterModel(action: Action, message: OpenedMessage) returns (result: ActionResult)
      requires Valid()
      modifies this`models
      ensures Valid()
      ensures var (after, outcome) := Register(old(Memory()), action.message, message.Values());
              Memory() == after && result == BuildResult(action, outcome)
    {
      if action.message == [] {
        return BuildResult(action, Err(EmptyMessage));
      }
      var registration := Registration(message.Values());
      if registration.Err? {
        return BuildResult(action, Err(registration.error));
      }
      models := models[message.policyId := message.model];
      assert Memory() == old(Memory())[message.policyId := message.model.Values()];
      result := BuildResult(action, Ok([]));
    }

    method ProcessEvaluate(action: Action) returns (result: ActionResult)
      requires Valid()
      ensures Memory() == old(Memory()) && models == old(models)
      ensures result == BuildResult(action, Decide(Memory(), action.message))
    {
      if action.message == [] {
        return BuildResult(action, Err(EmptyMessage));
      }
      var request := DecisionCodec.Decode(action.message);
      if request.Err? {
        return BuildResult(action, Err(BadRequest(request.error)));
      }
      if request.value.policyId !in models {
        return BuildResult(action, Err(NoModel(request.value.policyId)));
      }
      var model := models[request.value.policyId];
      var rainfall := new BigInt(request.value.value);
      var payout, error := EvaluatePayout(model, rainfall, bps);
      assert Memory()[request.value.policyId] == model.Values();
      if error.Some? {
        return BuildResult(action, Err(NotScored(error.value)));
      }
      var encoded := DecisionCodec.Encode(request.value.policyId, Some(payout.value), request.value.payoutTo);
      if encoded.Err? {
        return BuildResult(action, Err(NotEncoded(encoded.error)));
      }
      result := BuildResult(action, Ok(encoded.value));
    }

    /** Routing by operation type and command. */
    method ProcessAction(action: Action, message: OpenedMessage) returns (reply: Reply)
      requires Valid()
      modifies this`models
      ensures Valid()
      ensures (Memory(), reply) == Process(old(Memory()), action, message.Values())
    {
      if !action.isPolicy {
        return NotImplemented;
      }
      match action.command
      case RegisterModel =>
        var result := ProcessRegisterModel(action, message);
        reply := Answer(result);
      case Evaluate =>
        var result := ProcessEvaluate(action);
        reply := Answer(result);
      case Unsupported(_) =>
        reply := NotImplemented;
    }
  }
}
