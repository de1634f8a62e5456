/** The JSON builder: event handlers over a stack of open containers, charging a shared budget. */
module JsonBuilder {
  import opened Base
  import opened Json

  /** Shared totals of one parse. */
  class ParseBudget {
    const limits: ParseLimits
    var nodes: nat
    var stringBytes: nat
    var containerEntries: nat

    constructor (limits: ParseLimits)
      ensures this.limits == limits && Used() == Counters(0, 0, 0)
    {
      this.limits := limits;
      nodes, stringBytes, containerEntries := 0, 0, 0;
    }

    ghost function Used(): Counters
      reads this
    {
      Counters(nodes, stringBytes, containerEntries)
    }

    /** Nothing is charged that goes beyond the maximum. */
    static method Consume(used: nat, amount: nat, maximum: nat, error: Error) returns (r: Result<nat>)
      ensures r == if used + amount > maximum then Err(error) else Ok(used + amount)
    {
      if used > maximum || amount > maximum - used {
        return Err(error);
      }
      return Ok(used + amount);
    }

    method AddNode(depth: nat) returns (r: Outcome)
      modifies this`nodes
      ensures match Json.AddNode(old(Used()), depth, limits)
              case Ok(c) => r == Pass && Used() == c
              case Err(e) => r == Fail(e) && Used() == old(Used())
    {
      if depth >= limits.maxNestingDepth || depth >= PARSE_NESTING_CEILING {
        return Fail(JsonNesting);
      }
      var total := Consume(nodes, 1, limits.maxNodes, JsonNodes);
      if total.Err? {
        return Fail(total.error);
      }
      nodes := total.value;
      r := Pass;
    }

    method AddString(bytes: nat) returns (r: Outcome)
      modifies this`stringBytes
      ensures match Json.AddString(old(Used()), bytes, limits)
              case Ok(c) => r == Pass && Used() == c
              case Err(e) => r == Fail(e) && Used() == old(Used())
    {
      var total := Consume(stringBytes, bytes, limits.maxStringBytes, JsonStrings);
      if total.Err? {
        return Fail(total.error);
      }
      stringBytes := total.value;
      r := Pass;
    }

    method AddContainerEntries(entries: nat) returns (r: Outcome)
      modifies this`containerEntries
      ensures match Json.AddEntries(old(Used()), entries, limits)
              case Ok(c) => r == Pass && Used() == c
              case Err(e) => r == Fail(e) && Used() == old(Used())
    {
      var total := Consume(containerEntries, entries, limits.maxContainerEntries, JsonEntries);
      if total.Err? {
        return Fail(total.error);
      }
      containerEntries := total.value;
      r := Pass;
    }
  }

  class JSONDataBuilder {
    const budget: ParseBudget
    var frames: seq<Frame>
    var result: Option<Value>

    constructor (limits: ParseLimits)
      ensures fresh(budget) && budget.limits == limits && Now() == INITIAL
    {
      budget := new ParseBudget(limits);
      frames, result := [], None;
    }

    ghost function Now(): State
      reads this, budget
    {
      State(frames, result, budget.Used())
    }

    method BeginValue() returns (r: Outcome)
      modifies budget
      ensures match Json.BeginValue(old(Now()), budget.limits)
              case Ok(s) => r == Pass && Now() == s
              case Err(e) => r == Fail(e)
    {
      if frames != [] && frames[|frames| - 1].value.ArrayValue? {
        r := budget.AddContainerEntries(1);
        if r.Fail? {
          return;
        }
      }
      r := budget.AddNode(|frames|);
    }

    method AddValue(value: Value) returns (r: Outcome)
      modifies this
      ensures match Json.AddValue(old(Now()), value)
              case Ok(s) => r == Pass && Now() == s
              case Err(e) => r == Fail(e)
    {
      r := Pass;
      if frames == [] {
        if result.Some? {
          return Fail(JsonInvalid);
        }
        result := Some(value);
        return;
      }
      var last := |frames| - 1;
      var parent := frames[last];
      if parent.value.ArrayValue? {
        frames := frames[last := Frame(ArrayValue(parent.value.items + [value]), parent.key)];
        return;
      }
      if !parent.value.ObjectValue? || parent.key.None? {
        return Fail(JsonInvalid);
      }
      frames := frames[last := Frame(ObjectValue(parent.value.entries[parent.key.value := value]), None)];
    }

    /** The handlers of null, booleans, numbers and strings. */
    method HandleScalar(event: Event) returns (r: Outcome)
      requires IsScalar(event)
      modifies this, budget
      ensures match AddScalar(old(Now()), event, budget.limits)
              case Ok(s) => r == Pass && Now() == s
              case Err(e) => r == Fail(e)
    {
      hide Json.AddValue, Json.BeginValue;
      r := BeginValue();
      if r.Fail? {
        return;
      }
      var value := ScalarValue(event);
      if value.Err? {
        return Fail(value.error);
      }
      r := budget.AddString(StringCost(event));
      if r.Fail? {
        return;
      }
      r := AddValue(value.value);
    }

    method HandleStart(empty: Value) returns (r: Outcome)
      modifies this, budget
      ensures match StartContainer(old(Now()), empty, budget.limits)
              case Ok(s) => r == Pass && Now() == s
              case Err(e) => r == Fail(e)
    {
      r := BeginValue();
      if r.Fail? {
        return;
      }
      frames := frames + [Frame(empty, None)];
    }

    method HandleKey(key: Bytes) returns (r: Outcome)
      modifies this, budget
      ensures match AddKey(old(Now()), key, budget.limits)
              case Ok(s) => r == Pass && Now() == s
              case Err(e) => r == Fail(e)
    {
      r := Pass;
      if frames == [] || !frames[|frames| - 1].value.ObjectValue? || frames[|frames| - 1].key.Some? {
        return Fail(JsonInvalid);
      }
      r := budget.AddContainerEntries(1);
      if r.Fail? {
        return;
      }
      r := budget.AddString(|key|);
      if r.Fail? {
        return;
      }
      frames := frames[|frames| - 1 := frames[|frames| - 1].(key := Some(key))];
    }

    method HandleEnd(isArray: bool) returns (r: Outcome)
      modifies this
      ensures match EndContainer(old(Now()), isArray)
              case Ok(s) => r == Pass && Now() == s
              case Err(e) => r == Fail(e)
    {
      if frames == [] {
        return Fail(JsonInvalid);
      }
      var top := frames[|frames| - 1];
      if !(if isArray then top.value.ArrayValue? else top.value.ObjectValue?) || top.key.Some? {
        return Fail(JsonInvalid);
      }
      frames := frames[..|frames| - 1];
      r := AddValue(top.value);
    }

    method Handle(event: Event) returns (r: Outcome)
      modifies this, budget
      ensures match Step(old(Now()), event, budget.limits)
              case Ok(s) => r == Pass && Now() == s
              case Err(e) => r == Fail(e)
    {
      hide AddScalar, AddKey, EndContainer, StartContainer;
      match event {
        case StartObject => r := HandleStart(ObjectValue(map[]));
        case StartArray => r := HandleStart(ArrayValue([]));
        case EndObject => r := HandleEnd(false);
        case EndArray => r := HandleEnd(true);
        case Key(key) => r := HandleKey(key);
        case _ => r := HandleScalar(event);
      }
    }
  }

  /** Driving the builder with the events of a text. */
  method ParseJSON(events: seq<Event>, limits: ParseLimits) returns (r: Result<(Value, Counters)>)
    ensures r == Parse(events, limits)
  {
    hide Step;
    var builder := new JSONDataBuilder(limits);
    var i := 0;
    assert events[0..] == events;
    while i < |events|
      invariant i <= |events| && builder.budget.limits == limits && fresh(builder) && fresh(builder.budget)
      invariant Run(builder.Now(), events[i..], limits) == Run(INITIAL, events, limits)
    {
      assert events[i..][0] == events[i] && events[i..][1..] == events[i + 1..];
      var handled := builder.Handle(events[i]);
      if handled.Fail? {
        return Err(handled.error);
      }
      i := i + 1;
    }
    assert events[i..] == [];
    if builder.result.None? || builder.frames != [] {
      return Err(JsonInvalid);
    }
    return Ok((builder.result.value, Counters(builder.budget.nodes, builder.budget.stringBytes, builder.budget.containerEntries)));
  }
}
