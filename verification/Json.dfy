/** The JSON event machine: which sequences of parse events it accepts, what it builds and what it charges. */
module Json {
  import opened Base

  const INT64_MAX: int := 0x7fff_ffff_ffff_ffff
  const PARSE_NESTING_CEILING: nat := 256

  datatype ParseLimits = ParseLimits(maxNestingDepth: nat, maxNodes: nat, maxStringBytes: nat, maxContainerEntries: nat)

  /** The events of the underlying parser. A floating-point number comes with its normalized spelling, if it has one. */
  datatype Event =
    | NullEvent
    | BooleanEvent(truth: bool)
    | IntegerEvent(integer: int)
    | UnsignedEvent(unsigned: nat)
    | FloatEvent(spelling: Option<Bytes>, finite: bool)
    | StringEvent(text: Bytes)
    | StartObject
    | Key(key: Bytes)
    | EndObject
    | StartArray
    | EndArray

  datatype Value =
    | NullValue
    | BooleanValue(truth: bool)
    | IntegerValue(integer: int)
    | FloatValue(spelling: Bytes)
    | StringValue(text: Bytes)
    | ObjectValue(entries: map<Bytes, Value>)
    | ArrayValue(items: seq<Value>)

  /** A container under construction; `key` waits for its value. */
  datatype Frame = Frame(value: Value, key: Option<Bytes>)

  datatype Counters = Counters(nodes: nat, strings: nat, entries: nat)

  datatype State = State(frames: seq<Frame>, result: Option<Value>, used: Counters)

  const INITIAL := State([], None, Counters(0, 0, 0))

  // ---- One event ------------------------------------------------------------------------------------

  function AddEntries(c: Counters, entries: nat, limits: ParseLimits): Result<Counters> {
    if c.entries + entries > limits.maxContainerEntries then Err(JsonEntries) else Ok(c.(entries := c.entries + entries))
  }

  function AddString(c: Counters, bytes: nat, limits: ParseLimits): Result<Counters> {
    if c.strings + bytes > limits.maxStringBytes then Err(JsonStrings) else Ok(c.(strings := c.strings + bytes))
  }

  function AddNode(c: Counters, depth: nat, limits: ParseLimits): Result<Counters> {
    if depth >= limits.maxNestingDepth || depth >= PARSE_NESTING_CEILING then Err(JsonNesting)
    else if c.nodes + 1 > limits.maxNodes then Err(JsonNodes)
    else Ok(c.(nodes := c.nodes + 1))
  }

  function BeginValue(s: State, limits: ParseLimits): Result<State> {
    var entered := if s.frames != [] && s.frames[|s.frames| - 1].value.ArrayValue? then AddEntries(s.used, 1, limits) else Ok(s.used);
    if entered.Err? then Err(entered.error)
    else
      var used :- AddNode(entered.value, |s.frames|, limits);
      Ok(s.(used := used))
  }

  function AddValue(s: State, v: Value): Result<State> {
    if s.frames == [] then
      if s.result.Some? then Err(JsonInvalid) else Ok(s.(result := Some(v)))
    else
      var last := |s.frames| - 1;
      var parent := s.frames[last];
      if parent.value.ArrayValue? then
        Ok(s.(frames := s.frames[last := Frame(ArrayValue(parent.value.items + [v]), parent.key)]))
      else if !parent.value.ObjectValue? || parent.key.None? then Err(JsonInvalid)
      else Ok(s.(frames := s.frames[last := Frame(ObjectValue(parent.value.entries[parent.key.value := v]), None)]))
  }

  function EndContainer(s: State, isArray: bool): Result<State> {
    if s.frames == [] then Err(JsonInvalid)
    else
      var last := |s.frames| - 1;
      var top := s.frames[last];
      if !(if isArray then top.value.ArrayValue? else top.value.ObjectValue?) || top.key.Some? then Err(JsonInvalid)
      else AddValue(s.(frames := s.frames[..last]), top.value)
  }

  function StringCost(e: Event): nat {
    if e.StringEvent? then |e.text| else if e.FloatEvent? && e.spelling.Some? then |e.spelling.value| else 0
  }

  /** The value of a scalar event, or why there is none. */
  function ScalarValue(e: Event): Result<Value> {
    match e
    case NullEvent => Ok(NullValue)
    case BooleanEvent(truth) => Ok(BooleanValue(truth))
    case IntegerEvent(integer) => Ok(IntegerValue(integer))
    case UnsignedEvent(unsigned) => if unsigned > INT64_MAX then Err(JsonInteger) else Ok(IntegerValue(unsigned))
    case FloatEvent(spelling, finite) =>
      if spelling.None? then Err(JsonInteger) else if !finite then Err(JsonFloat) else Ok(FloatValue(spelling.value))
    case StringEvent(text) => Ok(StringValue(text))
    case _ => Err(JsonInvalid)
  }

  predicate IsScalar(e: Event) {
    !e.StartObject? && !e.Key? && !e.EndObject? && !e.StartArray? && !e.EndArray?
  }

  function AddScalar(s: State, e: Event, limits: ParseLimits): Result<State> {
    var begun :- BeginValue(s, limits);
    var value :- ScalarValue(e);
    var used :- AddString(begun.used, StringCost(e), limits);
    AddValue(begun.(used := used), value)
  }

  function AddKey(s: State, key: Bytes, limits: ParseLimits): Result<State> {
    if s.frames == [] || !s.frames[|s.frames| - 1].value.ObjectValue? || s.frames[|s.frames| - 1].key.Some? then Err(JsonInvalid)
    else
      var entered :- AddEntries(s.used, 1, limits);
      var used :- AddString(entered, |key|, limits);
      var last := |s.frames| - 1;
      Ok(s.(used := used, frames := s.frames[last := s.frames[last].(key := Some(key))]))
  }

  function StartContainer(s: State, empty: Value, limits: ParseLimits): Result<State> {
    var begun :- BeginValue(s, limits);
    Ok(begun.(frames := begun.frames + [Frame(empty, None)]))
  }

  function Step(s: State, e: Event, limits: ParseLimits): Result<State> {
    match e
    case StartObject => StartContainer(s, ObjectValue(map[]), limits)
    case StartArray => StartContainer(s, ArrayValue([]), limits)
    case EndObject => EndContainer(s, false)
    case EndArray => EndContainer(s, true)
    case Key(key) => AddKey(s, key, limits)
    case _ => AddScalar(s, e, limits)
  }

  function Run(s: State, events: seq<Event>, limits: ParseLimits): Result<State>
    decreases |events|
  {
    if events == [] then Ok(s)
    else
      var next :- Step(s, events[0], limits);
      Run(next, events[1..], limits)
  }

  /** The outcome of a parse: the value built, and everything that was charged for it. */
  function Parse(events: seq<Event>, limits: ParseLimits): Result<(Value, Counters)> {
    var s :- Run(INITIAL, events, limits);
    if s.result.None? || s.frames != [] then Err(JsonInvalid) else Ok((s.result.value, s.used))
  }

  lemma {:induction false} RunConcat(s: State, a: seq<Event>, b: seq<Event>, limits: ParseLimits)
    ensures Run(s, a + b, limits)
         == match Run(s, a, limits) case Ok(t) => Run(t, b, limits) case Err(e) => Err(e)
    decreases |a|
  {
    hide Step;
    if a == [] {
      assert a + b == b;
    } else {
      assert (a + b)[0] == a[0] && (a + b)[1..] == a[1..] + b;
      var next := Step(s, a[0], limits);
      if next.Ok? {
        RunConcat(next.value, a[1..], b, limits);
      }
    }
  }

  lemma {:induction false} RunOne(s: State, e: Event, limits: ParseLimits)
    ensures Run(s, [e], limits) == Step(s, e, limits)
  {
    hide Step;
    var one := [e];
    assert one[1..] == [] && one[0] == e;
  }

  // ---- Documents ------------------------------------------------------------------------------------

  /** A JSON text, with its members in order and duplicates kept. */
  datatype Document = Scalar(event: Event) | List(items: seq<Document>) | Record(members: seq<Member>)

  datatype Member = Member(key: Bytes, document: Document)

  function Linear(d: Document): seq<Event> {
    match d
    case Scalar(event) => [event]
    case List(items) => [StartArray] + LinearItems(items) + [EndArray]
    case Record(members) => [StartObject] + LinearMembers(members) + [EndObject]
  }

  function LinearItems(items: seq<Document>): seq<Event> {
    if items == [] then []
    else
      var last := |items| - 1;
      LinearItems(items[..last]) + Linear(items[last])
  }

  function LinearMembers(members: seq<Member>): seq<Event> {
    if members == [] then []
    else
      var last := |members| - 1;
      LinearMembers(members[..last]) + ([Key(members[last].key)] + Linear(members[last].document))
  }

  /** Scalars are scalars, and each has a value. */
  predicate Proper(d: Document) {
    match d
    case Scalar(event) => IsScalar(event) && ScalarValue(event).Ok?
    case List(items) => forall i :: 0 <= i < |items| ==> Proper(items[i])
    case Record(members) => forall i :: 0 <= i < |members| ==> Proper(members[i].document)
  }

  /** The value a document stands for: of several members with one key the last wins. */
  function Meaning(d: Document): Value
    requires Proper(d)
  {
    match d
    case Scalar(event) => ScalarValue(event).value
    case List(items) => ArrayValue(ItemsMeaning(items))
    case Record(members) => ObjectValue(MembersMeaning(members))
  }

  function ItemsMeaning(items: seq<Document>): (r: seq<Value>)
    requires forall i :: 0 <= i < |items| ==> Proper(items[i])
    ensures |r| == |items|
  {
    if items == [] then []
    else
      var last := |items| - 1;
      ItemsMeaning(items[..last]) + [Meaning(items[last])]
  }

  function MembersMeaning(members: seq<Member>): map<Bytes, Value>
    requires forall i :: 0 <= i < |members| ==> Proper(members[i].document)
  {
    if members == [] then map[]
    else
      var last := |members| - 1;
      MembersMeaning(members[..last])[members[last].key := Meaning(members[last].document)]
  }

  /** Nodes, string bytes and container entries of a document. */
  function Total(d: Document): Counters {
    match d
    case Scalar(event) => Counters(1, StringCost(event), 0)
    case List(items) => Plus(Counters(1, 0, |items|), ItemsTotal(items))
    case Record(members) => Plus(Counters(1, 0, 0), MembersTotal(members))
  }

  function Plus(a: Counters, b: Counters): Counters {
    Counters(a.nodes + b.nodes, a.strings + b.strings, a.entries + b.entries)
  }

  function ItemsTotal(items: seq<Document>): Counters {
    if items == [] then Counters(0, 0, 0)
    else
      var last := |items| - 1;
      Plus(ItemsTotal(items[..last]), Total(items[last]))
  }

  function MembersTotal(members: seq<Member>): Counters {
    if members == [] then Counters(0, 0, 0)
    else
      var last := |members| - 1;
      Plus(MembersTotal(members[..last]), Plus(Counters(0, |members[last].key|, 1), Total(members[last].document)))
  }

  function Height(d: Document): nat {
    match d
    case Scalar(_) => 1
    case List(items) => 1 + ItemsHeight(items)
    case Record(members) => 1 + MembersHeight(members)
  }

  function ItemsHeight(items: seq<Document>): nat {
    if items == [] then 0
    else
      var last := |items| - 1;
      Max(ItemsHeight(items[..last]), Height(items[last]))
  }

  function MembersHeight(members: seq<Member>): nat {
    if members == [] then 0
    else
      var last := |members| - 1;
      Max(MembersHeight(members[..last]), Height(members[last].document))
  }

  predicate Within(c: Counters, limits: ParseLimits) {
    c.nodes <= limits.maxNodes && c.strings <= limits.maxStringBytes && c.entries <= limits.maxContainerEntries
  }

  /** One value, with everything it needs. */
  predicate Fits(d: Document, limits: ParseLimits) {
    Proper(d) && Within(Total(d), limits) && Height(d) <= limits.maxNestingDepth && Height(d) <= PARSE_NESTING_CEILING
  }

  lemma {:induction false} LastKeyWins(members: seq<Member>, i: nat)
    requires forall k :: 0 <= k < |members| ==> Proper(members[k].document)
    requires i < |members| && forall k :: i < k < |members| ==> members[k].key != members[i].key
    ensures members[i].key in MembersMeaning(members)
    ensures MembersMeaning(members)[members[i].key] == Meaning(members[i].document)
  {
    var last := |members| - 1;
    if i < last {
      LastKeyWins(members[..last], i);
    }
  }

  /** The i-th member is the last with this key. */
  predicate LastOf(members: seq<Member>, i: nat, key: Bytes) {
    i < |members| && members[i].key == key && forall k :: i < k < |members| ==> members[k].key != key
  }

  lemma {:induction false} OnlyKeysOfMembers(members: seq<Member>, key: Bytes) returns (i: nat)
    requires forall k :: 0 <= k < |members| ==> Proper(members[k].document)
    requires key in MembersMeaning(members)
    ensures LastOf(members, i, key)
  {
    var last := |members| - 1;
    if members[last].key == key {
      i := last;
    } else {
      i := OnlyKeysOfMembers(members[..last], key);
      assert members[..last][i] == members[i];
      forall k | i < k < |members|
        ensures members[k].key != key
      {
        assert k < last ==> members[k] == members[..last][k];
      }
    }
  }

  /** An object has exactly the keys of its members, and of several members with one key the last gives the value. */
  lemma {:induction false} ObjectOfMembers(members: seq<Member>, key: Bytes)
    requires forall k :: 0 <= k < |members| ==> Proper(members[k].document)
    ensures key in MembersMeaning(members) <==> exists i: nat :: LastOf(members, i, key)
    ensures forall i: nat :: LastOf(members, i, key) ==>
              key in MembersMeaning(members) && MembersMeaning(members)[key] == Meaning(members[i].document)
  {
    forall i: nat | LastOf(members, i, key)
      ensures key in MembersMeaning(members) && MembersMeaning(members)[key] == Meaning(members[i].document)
    {
      LastKeyWins(members, i);
    }
    if key in MembersMeaning(members) {
      var i := OnlyKeysOfMembers(members, key);
    }
  }

  // ---- Over one document the machine succeeds exactly when it fits ----------------------------------------

  /** A value may come next. */
  predicate Expects(s: State) {
    if s.frames == [] then s.result.None?
    else
      var top := s.frames[|s.frames| - 1];
      (top.value.ArrayValue? && top.key.None?) || (top.value.ObjectValue? && top.key.Some?)
  }

  /** What is charged for entering a value here: in an array it is an entry. */
  function Entered(s: State): Counters {
    if s.frames != [] && s.frames[|s.frames| - 1].value.ArrayValue? then Plus(s.used, Counters(0, 0, 1)) else s.used
  }

  predicate DepthFits(depth: nat, limits: ParseLimits) {
    depth <= limits.maxNestingDepth && depth <= PARSE_NESTING_CEILING
  }

  predicate Room(s: State, d: Document, limits: ParseLimits) {
    Within(Plus(Entered(s), Total(d)), limits) && DepthFits(|s.frames| + Height(d), limits)
  }

  /** The array or object open on top of s, with these parts in it. */
  function InList(s: State, items: seq<Document>, c: Counters): State
    requires forall i :: 0 <= i < |items| ==> Proper(items[i])
  {
    State(s.frames + [Frame(ArrayValue(ItemsMeaning(items)), None)], s.result,
          Plus(c, Plus(Counters(0, 0, |items|), ItemsTotal(items))))
  }

  function InRecord(s: State, members: seq<Member>, c: Counters): State
    requires forall i :: 0 <= i < |members| ==> Proper(members[i].document)
  {
    State(s.frames + [Frame(ObjectValue(MembersMeaning(members)), None)], s.result, Plus(c, MembersTotal(members)))
  }

  lemma {:induction false} BeginExact(s: State, limits: ParseLimits)
    requires Within(s.used, limits)
    ensures var used := Plus(Entered(s), Counters(1, 0, 0));
            if Within(used, limits) && DepthFits(|s.frames| + 1, limits) then BeginValue(s, limits) == Ok(s.(used := used))
            else BeginValue(s, limits).Err?
  {
  }

  /** Entering a container or a scalar needs no more room than all of it. */
  lemma {:induction false} RoomBegins(s: State, d: Document, limits: ParseLimits)
    requires Room(s, d, limits)
    ensures Within(Plus(Entered(s), Counters(1, 0, 0)), limits) && DepthFits(|s.frames| + 1, limits)
  {
  }

  lemma {:induction false} DocumentExact(s: State, d: Document, limits: ParseLimits)
    requires Expects(s) && Proper(d) && Within(s.used, limits)
    ensures var r := Run(s, Linear(d), limits);
            if Room(s, d, limits) then r == AddValue(s.(used := Plus(Entered(s), Total(d))), Meaning(d)) && r.Ok?
            else r.Err?
    decreases d, 1
  {
    hide Step, Run, AddValue, BeginValue, Within, DepthFits, ItemsTotal, MembersTotal, ItemsHeight, MembersHeight;
    hide LinearItems, LinearMembers, ItemsMeaning, MembersMeaning;
    if Room(s, d, limits) {
      RoomBegins(s, d, limits);
      Accepts(s.(used := Plus(Entered(s), Total(d))), Meaning(d));
    }
    match d {
      case Scalar(event) => ScalarExact(s, event, limits);
      case List(items) => ListExact(s, items, limits);
      case Record(members) => RecordExact(s, members, limits);
    }
  }

  lemma {:induction false} Accepts(s: State, v: Value)
    requires Expects(s)
    ensures AddValue(s, v).Ok?
  {
  }

  lemma {:induction false} ScalarExact(s: State, event: Event, limits: ParseLimits)
    requires Expects(s) && Proper(Scalar(event)) && Within(s.used, limits)
    ensures var r, d := Run(s, [event], limits), Scalar(event);
            if Room(s, d, limits) then r == AddValue(s.(used := Plus(Entered(s), Total(d))), Meaning(d)) else r.Err?
  {
    hide AddValue, BeginValue;
    RunOne(s, event, limits);
    BeginExact(s, limits);
  }

  lemma {:induction false} ListExact(s: State, items: seq<Document>, limits: ParseLimits)
    requires Expects(s) && Proper(List(items)) && Within(s.used, limits)
    ensures var r, d := Run(s, Linear(List(items)), limits), List(items);
            if Room(s, d, limits) then r == AddValue(s.(used := Plus(Entered(s), Total(d))), Meaning(d)) else r.Err?
    decreases items, 2
  {
    hide Run, AddValue, BeginValue, Step, Within, DepthFits, ItemsTotal, ItemsHeight, LinearItems, ItemsMeaning, InList;
    hide Entered;
    hide ItemsRoom, Room;
    var inner, d := LinearItems(items), List(items);
    var c := Plus(Entered(s), Counters(1, 0, 0));
    BeginExact(s, limits);
    RunConcat(s, [StartArray] + inner, [EndArray], limits);
    RunConcat(s, [StartArray], inner, limits);
    RunOne(s, StartArray, limits);
    if Within(c, limits) && DepthFits(|s.frames| + 1, limits) {
      ListOpens(s, c, limits);
      ItemsExact(s, items, c, limits);
      RunOne(InList(s, items, c), EndArray, limits);
      ListRoom(s, items, limits);
      ListCloses(s, items, c, limits);
    } else {
      NoStart(s, limits);
      if Room(s, d, limits) {
        RoomBegins(s, d, limits);
      }
    }
  }

  lemma {:induction false} NoItems()
    ensures ItemsTotal([]) == Counters(0, 0, 0) && ItemsHeight([]) == 0 && ItemsMeaning([]) == []
  {
    hide Total, Height, Meaning, Proper;
  }

  lemma {:induction false} ListOpens(s: State, c: Counters, limits: ParseLimits)
    requires BeginValue(s, limits) == Ok(s.(used := c))
    ensures Step(s, StartArray, limits) == Ok(InList(s, [], c))
  {
    hide BeginValue, ItemsTotal, ItemsMeaning;
    NoItems();
  }

  lemma {:induction false} RecordOpens(s: State, c: Counters, limits: ParseLimits)
    requires BeginValue(s, limits) == Ok(s.(used := c))
    ensures Step(s, StartObject, limits) == Ok(InRecord(s, [], c))
  {
    hide BeginValue;
  }

  lemma {:induction false} NoStart(s: State, limits: ParseLimits)
    requires BeginValue(s, limits).Err?
    ensures Step(s, StartArray, limits).Err? && Step(s, StartObject, limits).Err?
  {
    hide BeginValue;
  }

  lemma {:induction false} ListCloses(s: State, items: seq<Document>, c: Counters, limits: ParseLimits)
    requires forall i :: 0 <= i < |items| ==> Proper(items[i])
    ensures var closed := InList(s, items, c);
            Step(closed, EndArray, limits) == AddValue(State(s.frames, s.result, closed.used), ArrayValue(ItemsMeaning(items)))
  {
    hide AddValue, ItemsMeaning, ItemsTotal, Proper;
    assert InList(s, items, c).frames[..|s.frames|] == s.frames;
  }

  lemma {:induction false} RecordCloses(s: State, members: seq<Member>, c: Counters, limits: ParseLimits)
    requires forall i :: 0 <= i < |members| ==> Proper(members[i].document)
    ensures var closed := InRecord(s, members, c);
            Step(closed, EndObject, limits)
            == AddValue(State(s.frames, s.result, closed.used), ObjectValue(MembersMeaning(members)))
  {
    hide AddValue, MembersMeaning, MembersTotal, Proper;
    assert InRecord(s, members, c).frames[..|s.frames|] == s.frames;
  }

  /** Room for the list is room to enter it and room for its items. */
  lemma {:induction false} ListRoom(s: State, items: seq<Document>, limits: ParseLimits)
    requires Within(Plus(Entered(s), Counters(1, 0, 0)), limits) && DepthFits(|s.frames| + 1, limits)
    ensures Room(s, List(items), limits) <==> ItemsRoom(s, items, Plus(Entered(s), Counters(1, 0, 0)), limits)
    ensures (forall i :: 0 <= i < |items| ==> Proper(items[i])) ==>
              InList(s, items, Plus(Entered(s), Counters(1, 0, 0))).used == Plus(Entered(s), Total(List(items)))
  {
    hide ItemsTotal, ItemsHeight, ItemsMeaning, Proper;
  }

  predicate ItemsRoom(s: State, items: seq<Document>, c: Counters, limits: ParseLimits) {
    Within(Plus(c, Plus(Counters(0, 0, |items|), ItemsTotal(items))), limits)
    && DepthFits(|s.frames| + 1 + ItemsHeight(items), limits)
  }

  lemma {:induction false} ItemsExact(s: State, items: seq<Document>, c: Counters, limits: ParseLimits)
    requires forall i :: 0 <= i < |items| ==> Proper(items[i])
    requires Within(c, limits) && DepthFits(|s.frames| + 1, limits)
    ensures var r := Run(InList(s, [], c), LinearItems(items), limits);
            if ItemsRoom(s, items, c, limits) then r == Ok(InList(s, items, c)) else r.Err?
    decreases items, 1
  {
    hide Proper, Linear, Height, Total, Meaning, AddValue, Step, InList, ItemsRoom, Room, Run, Expects, Within;
    EmptyItemsRoom(s, c, limits);
    RunNothing(InList(s, [], c), limits);
    if items != [] {
      var last := |items| - 1;
      var front, d := items[..last], items[last];
      ItemsExact(s, front, c, limits);
      RunConcat(InList(s, [], c), LinearItems(front), Linear(d), limits);
      ItemsRoomSplit(s, items, c, limits);
      if ItemsRoom(s, front, c, limits) {
        var open := InList(s, front, c);
        InListOpen(s, front, c, limits);
        DocumentExact(open, d, limits);
        if Room(open, d, limits) {
          AppendItem(s, items, c);
        }
      }
    }
  }

  lemma {:induction false} RunNothing(s: State, limits: ParseLimits)
    ensures Run(s, [], limits) == Ok(s)
  {
  }

  lemma {:induction false} EmptyItemsRoom(s: State, c: Counters, limits: ParseLimits)
    ensures ItemsRoom(s, [], c, limits) <==> Within(c, limits) && DepthFits(|s.frames| + 1, limits)
  {
    hide ItemsTotal, ItemsHeight;
    NoItems();
  }

  lemma {:induction false} EmptyMembersRoom(s: State, c: Counters, limits: ParseLimits)
    ensures MembersRoom(s, [], c, limits) <==> Within(c, limits) && DepthFits(|s.frames| + 1, limits)
  {
  }

  lemma {:induction false} InListOpen(s: State, items: seq<Document>, c: Counters, limits: ParseLimits)
    requires (forall i :: 0 <= i < |items| ==> Proper(items[i])) && ItemsRoom(s, items, c, limits)
    ensures Expects(InList(s, items, c)) && Within(InList(s, items, c).used, limits)
  {
    hide ItemsMeaning, ItemsTotal, ItemsHeight, Proper;
  }

  lemma {:induction false} ItemsRoomSplit(s: State, items: seq<Document>, c: Counters, limits: ParseLimits)
    requires items != [] && forall i :: 0 <= i < |items| ==> Proper(items[i])
    ensures var front, d := items[..|items| - 1], items[|items| - 1];
            ItemsRoom(s, items, c, limits) <==> ItemsRoom(s, front, c, limits) && Room(InList(s, front, c), d, limits)
  {
    hide Proper, Height, Total, ItemsMeaning;
  }

  lemma {:induction false} AppendItem(s: State, items: seq<Document>, c: Counters)
    requires items != [] && forall i :: 0 <= i < |items| ==> Proper(items[i])
    ensures var front, d := items[..|items| - 1], items[|items| - 1];
            var open := InList(s, front, c);
            AddValue(open.(used := Plus(Entered(open), Total(d))), Meaning(d)) == Ok(InList(s, items, c))
  {
    hide Proper, Total, Meaning;
    var front, d := items[..|items| - 1], items[|items| - 1];
    var open := InList(s, front, c);
    var frame := Frame(ArrayValue(ItemsMeaning(front) + [Meaning(d)]), None);
    assert open.frames[|s.frames| := frame] == s.frames + [frame];
  }

  lemma {:induction false} RecordExact(s: State, members: seq<Member>, limits: ParseLimits)
    requires Expects(s) && Proper(Record(members)) && Within(s.used, limits)
    ensures var r, d := Run(s, Linear(Record(members)), limits), Record(members);
            if Room(s, d, limits) then r == AddValue(s.(used := Plus(Entered(s), Total(d))), Meaning(d)) else r.Err?
    decreases members, 2
  {
    hide Run, AddValue, BeginValue, Step, Within, DepthFits, MembersTotal, MembersHeight, LinearMembers, MembersMeaning;
    hide InRecord;
    hide Entered, MembersRoom, Room;
    var inner, d := LinearMembers(members), Record(members);
    var c := Plus(Entered(s), Counters(1, 0, 0));
    BeginExact(s, limits);
    RunConcat(s, [StartObject] + inner, [EndObject], limits);
    RunConcat(s, [StartObject], inner, limits);
    RunOne(s, StartObject, limits);
    if Within(c, limits) && DepthFits(|s.frames| + 1, limits) {
      RecordOpens(s, c, limits);
      MembersExact(s, members, c, limits);
      RunOne(InRecord(s, members, c), EndObject, limits);
      RecordRoom(s, members, limits);
      RecordCloses(s, members, c, limits);
    } else {
      NoStart(s, limits);
      if Room(s, d, limits) {
        RoomBegins(s, d, limits);
      }
    }
  }

  lemma {:induction false} RecordRoom(s: State, members: seq<Member>, limits: ParseLimits)
    requires Within(Plus(Entered(s), Counters(1, 0, 0)), limits) && DepthFits(|s.frames| + 1, limits)
    ensures Room(s, Record(members), limits) <==> MembersRoom(s, members, Plus(Entered(s), Counters(1, 0, 0)), limits)
    ensures (forall i :: 0 <= i < |members| ==> Proper(members[i].document)) ==>
              InRecord(s, members, Plus(Entered(s), Counters(1, 0, 0))).used == Plus(Entered(s), Total(Record(members)))
  {
    hide MembersTotal, MembersHeight, MembersMeaning, Proper;
  }

  predicate MembersRoom(s: State, members: seq<Member>, c: Counters, limits: ParseLimits) {
    Within(Plus(c, MembersTotal(members)), limits) && DepthFits(|s.frames| + 1 + MembersHeight(members), limits)
  }

  /** The object with the key of its next member read. */
  function Keyed(s: State, members: seq<Member>, key: Bytes, c: Counters): State
    requires forall i :: 0 <= i < |members| ==> Proper(members[i].document)
  {
    State(s.frames + [Frame(ObjectValue(MembersMeaning(members)), Some(key))], s.result,
          Plus(Plus(c, MembersTotal(members)), Counters(0, |key|, 1)))
  }

  lemma {:induction false} MembersExact(s: State, members: seq<Member>, c: Counters, limits: ParseLimits)
    requires forall i :: 0 <= i < |members| ==> Proper(members[i].document)
    requires Within(c, limits) && DepthFits(|s.frames| + 1, limits)
    ensures var r := Run(InRecord(s, [], c), LinearMembers(members), limits);
            if MembersRoom(s, members, c, limits) then r == Ok(InRecord(s, members, c)) else r.Err?
    decreases members, 1
  {
    hide Proper, Linear, Height, Total, Meaning, AddValue, Step, AddKey, InRecord, Keyed, MembersRoom, Room, Run, Expects;
    hide Within;
    EmptyMembersRoom(s, c, limits);
    RunNothing(InRecord(s, [], c), limits);
    if members != [] {
      var last := |members| - 1;
      var front, m := members[..last], members[last];
      MembersExact(s, front, c, limits);
      RunConcat(InRecord(s, [], c), LinearMembers(front), [Key(m.key)] + Linear(m.document), limits);
      MembersRoomSplit(s, members, c, limits);
      if MembersRoom(s, front, c, limits) {
        var open, keyed := InRecord(s, front, c), Keyed(s, front, m.key, c);
        RunConcat(open, [Key(m.key)], Linear(m.document), limits);
        RunOne(open, Key(m.key), limits);
        KeyExact(s, front, m.key, c, limits);
        if Within(keyed.used, limits) {
          DocumentExact(keyed, m.document, limits);
          if Room(keyed, m.document, limits) {
            AppendMember(s, members, c);
          }
        }
      }
    }
  }

  lemma {:induction false} KeyExact(s: State, members: seq<Member>, key: Bytes, c: Counters, limits: ParseLimits)
    requires (forall i :: 0 <= i < |members| ==> Proper(members[i].document)) && MembersRoom(s, members, c, limits)
    ensures var open, keyed := InRecord(s, members, c), Keyed(s, members, key, c);
            && Expects(keyed)
            && if Within(keyed.used, limits) then Step(open, Key(key), limits) == Ok(keyed) else Step(open, Key(key), limits).Err?
  {
    hide MembersMeaning, MembersTotal, MembersHeight, Proper;
    var open, keyed := InRecord(s, members, c), Keyed(s, members, key, c);
    assert open.frames[|s.frames| := Frame(ObjectValue(MembersMeaning(members)), Some(key))] == keyed.frames;
  }

  lemma {:induction false} MembersRoomSplit(s: State, members: seq<Member>, c: Counters, limits: ParseLimits)
    requires members != [] && forall i :: 0 <= i < |members| ==> Proper(members[i].document)
    ensures var front, m := members[..|members| - 1], members[|members| - 1];
            var keyed := Keyed(s, front, m.key, c);
            MembersRoom(s, members, c, limits) <==>
              MembersRoom(s, front, c, limits) && Within(keyed.used, limits) && Room(keyed, m.document, limits)
  {
    hide Proper, Height, Total, MembersMeaning;
  }

  lemma {:induction false} AppendMember(s: State, members: seq<Member>, c: Counters)
    requires members != [] && forall i :: 0 <= i < |members| ==> Proper(members[i].document)
    ensures var front, m := members[..|members| - 1], members[|members| - 1];
            var keyed := Keyed(s, front, m.key, c);
            AddValue(keyed.(used := Plus(Entered(keyed), Total(m.document))), Meaning(m.document)) == Ok(InRecord(s, members, c))
  {
    hide Proper, Total, Meaning;
    var front, m := members[..|members| - 1], members[|members| - 1];
    var keyed := Keyed(s, front, m.key, c);
    var frame := Frame(ObjectValue(MembersMeaning(front)[m.key := Meaning(m.document)]), None);
    assert keyed.frames[|s.frames| := frame] == s.frames + [frame];
  }

  // ---- Every accepted sequence spells a document ----------------------------------------------------------

  /** What the events so far spell: the documents of the open containers, and the finished one. */
  datatype OpenPart = OpenList(items: seq<Document>) | OpenRecord(members: seq<Member>, key: Option<Bytes>)

  datatype Shadow = Shadow(parts: seq<OpenPart>, result: Option<Document>)

  function PartEvents(p: OpenPart): seq<Event> {
    match p
    case OpenList(items) => [StartArray] + LinearItems(items)
    case OpenRecord(members, key) =>
      [StartObject] + LinearMembers(members) + if key.Some? then [Key(key.value)] else []
  }

  function PartsEvents(parts: seq<OpenPart>): seq<Event> {
    if parts == [] then []
    else
      var last := |parts| - 1;
      PartsEvents(parts[..last]) + PartEvents(parts[last])
  }

  /** The events that led here. */
  function Spelled(h: Shadow): seq<Event> {
    (if h.result.Some? then Linear(h.result.value) else []) + PartsEvents(h.parts)
  }

  predicate PartOf(p: OpenPart, f: Frame) {
    match p
    case OpenList(items) =>
      (forall i :: 0 <= i < |items| ==> Proper(items[i])) && f == Frame(ArrayValue(ItemsMeaning(items)), None)
    case OpenRecord(members, key) =>
      (forall i :: 0 <= i < |members| ==> Proper(members[i].document)) && f == Frame(ObjectValue(MembersMeaning(members)), key)
  }

  predicate ShadowOf(h: Shadow, s: State) {
    |h.parts| == |s.frames| && (forall k :: 0 <= k < |h.parts| ==> PartOf(h.parts[k], s.frames[k]))
    && if h.result.None? then s.result.None? else Proper(h.result.value) && s.result == Some(Meaning(h.result.value))
  }

  /** The document joins the innermost container, or is the result. */
  function AddDocument(h: Shadow, d: Document): Shadow {
    if h.parts == [] then h.(result := Some(d))
    else
      var last := |h.parts| - 1;
      match h.parts[last]
      case OpenList(items) => h.(parts := h.parts[last := OpenList(items + [d])])
      case OpenRecord(members, key) =>
        if key.None? then h else h.(parts := h.parts[last := OpenRecord(members + [Member(key.value, d)], None)])
  }

  lemma {:induction false} AddDocumentSpells(h: Shadow, s: State, d: Document)
    requires ShadowOf(h, s) && Proper(d) && AddValue(s, Meaning(d)).Ok?
    ensures Spelled(AddDocument(h, d)) == Spelled(h) + Linear(d)
    ensures ShadowOf(AddDocument(h, d), AddValue(s, Meaning(d)).value)
  {
    hide Linear, Meaning, Proper, PartsEvents, PartEvents, ItemsMeaning, MembersMeaning, Spelled;
    if h.parts != [] {
      var last := |h.parts| - 1;
      assert PartOf(h.parts[last], s.frames[last]);
      LastPartGrows(h, d);
      PartGrowsValue(h.parts[last], s.frames[last], d);
    } else {
      FirstDocument(h, d);
    }
  }

  lemma {:induction false} FirstDocument(h: Shadow, d: Document)
    requires h.parts == [] && h.result.None?
    ensures Spelled(AddDocument(h, d)) == Spelled(h) + Linear(d)
  {
    hide Linear;
    assert PartsEvents([]) == [];
    assert Linear(d) + [] == [] + [] + Linear(d);
  }

  lemma {:induction false} LastPartGrows(h: Shadow, d: Document)
    requires h.parts != [] && (h.parts[|h.parts| - 1].OpenRecord? ==> h.parts[|h.parts| - 1].key.Some?)
    ensures Spelled(AddDocument(h, d)) == Spelled(h) + Linear(d)
  {
    hide Linear, PartEvents;
    var last := |h.parts| - 1;
    var r := AddDocument(h, d);
    assert r.parts[..last] == h.parts[..last];
    PartGrows(h.parts[last], d);
    var result := if h.result.Some? then Linear(h.result.value) else [];
    var below, own := PartsEvents(h.parts[..last]), PartEvents(h.parts[last]);
    assert result + (below + (own + Linear(d))) == result + (below + own) + Linear(d);
  }

  lemma {:induction false} PartGrows(p: OpenPart, d: Document)
    ensures p.OpenList? ==> PartEvents(OpenList(p.items + [d])) == PartEvents(p) + Linear(d)
    ensures p.OpenRecord? && p.key.Some? ==>
              PartEvents(OpenRecord(p.members + [Member(p.key.value, d)], None)) == PartEvents(p) + Linear(d)
  {
    hide Linear;
    if p.OpenList? {
      assert (p.items + [d])[..|p.items|] == p.items;
      assert [StartArray] + (LinearItems(p.items) + Linear(d)) == [StartArray] + LinearItems(p.items) + Linear(d);
    } else if p.key.Some? {
      var m := Member(p.key.value, d);
      assert (p.members + [m])[..|p.members|] == p.members;
      var inner, key := LinearMembers(p.members), [Key(p.key.value)];
      assert [StartObject] + (inner + (key + Linear(d))) + [] == [StartObject] + inner + key + Linear(d);
    }
  }

  lemma {:induction false} PartGrowsValue(p: OpenPart, f: Frame, d: Document)
    requires PartOf(p, f) && Proper(d)
    ensures p.OpenList? ==> PartOf(OpenList(p.items + [d]), Frame(ArrayValue(f.value.items + [Meaning(d)]), None))
    ensures p.OpenRecord? && p.key.Some? ==>
              PartOf(OpenRecord(p.members + [Member(p.key.value, d)], None),
                     Frame(ObjectValue(f.value.entries[p.key.value := Meaning(d)]), None))
  {
    hide Meaning, Proper;
    if p.OpenList? {
      assert (p.items + [d])[..|p.items|] == p.items;
    } else if p.key.Some? {
      assert (p.members + [Member(p.key.value, d)])[..|p.members|] == p.members;
    }
  }

  /** One more event: what it does to the shadow. */
  function ShadowStep(h: Shadow, e: Event): Shadow {
    match e
    case StartObject => h.(parts := h.parts + [OpenRecord([], None)])
    case StartArray => h.(parts := h.parts + [OpenList([])])
    case Key(key) =>
      if h.parts == [] || h.parts[|h.parts| - 1].OpenList? then h
      else
        var last := |h.parts| - 1;
        h.(parts := h.parts[last := h.parts[last].(key := Some(key))])
    case EndObject => CloseShadow(h)
    case EndArray => CloseShadow(h)
    case _ => AddDocument(h, Scalar(e))
  }

  function CloseShadow(h: Shadow): Shadow {
    if h.parts == [] then h
    else
      var last := |h.parts| - 1;
      AddDocument(h.(parts := h.parts[..last]),
                  match h.parts[last] case OpenList(items) => List(items) case OpenRecord(members, _) => Record(members))
  }

  lemma {:induction false} StepSpells(h: Shadow, s: State, e: Event, limits: ParseLimits)
    requires ShadowOf(h, s) && Step(s, e, limits).Ok?
    ensures Spelled(ShadowStep(h, e)) == Spelled(h) + [e] && ShadowOf(ShadowStep(h, e), Step(s, e, limits).value)
  {
    hide ShadowOf, Spelled, AddValue, BeginValue, AddDocument, CloseShadow, AddKey, ScalarValue;
    BeginKeeps(s, limits);
    match e {
      case StartObject => StartSpells(h, s, OpenRecord([], None), BeginValue(s, limits).value.used);
      case StartArray => StartSpells(h, s, OpenList([]), BeginValue(s, limits).value.used);
      case Key(key) => KeySpells(h, s, key, limits);
      case EndObject => EndSpells(h, s, false);
      case EndArray => EndSpells(h, s, true);
      case _ => ScalarSpells(h, s, e, limits);
    }
  }

  lemma {:induction false} BeginKeeps(s: State, limits: ParseLimits)
    ensures var r := BeginValue(s, limits); r.Ok? ==> r.value == s.(used := r.value.used)
  {
  }

  lemma {:induction false} SameShadow(h: Shadow, s: State, used: Counters)
    requires ShadowOf(h, s)
    ensures ShadowOf(h, s.(used := used))
  {
    hide PartOf, Proper, Meaning;
  }

  lemma {:induction false} ScalarSpells(h: Shadow, s: State, e: Event, limits: ParseLimits)
    requires ShadowOf(h, s) && IsScalar(e) && AddScalar(s, e, limits).Ok?
    ensures Spelled(AddDocument(h, Scalar(e))) == Spelled(h) + [e]
    ensures ShadowOf(AddDocument(h, Scalar(e)), AddScalar(s, e, limits).value)
  {
    hide ShadowOf, Spelled, AddValue, AddDocument;
    var used := AddString(BeginValue(s, limits).value.used, StringCost(e), limits).value;
    SameShadow(h, s, used);
    AddDocumentSpells(h, s.(used := used), Scalar(e));
  }

  lemma {:induction false} StartSpells(h: Shadow, s: State, p: OpenPart, used: Counters)
    requires ShadowOf(h, s) && (p == OpenList([]) || p == OpenRecord([], None))
    ensures var r := h.(parts := h.parts + [p]);
            && Spelled(r) == Spelled(h) + [if p.OpenList? then StartArray else StartObject]
            && ShadowOf(r, s.(used := used,
                              frames := s.frames + [Frame(if p.OpenList? then ArrayValue([]) else ObjectValue(map[]), None)]))
  {
    hide Linear, Meaning, Proper;
    NoItems();
    assert (h.parts + [p])[..|h.parts|] == h.parts;
    var e := if p.OpenList? then StartArray else StartObject;
    NothingOpen(p);
    var result, below := if h.result.Some? then Linear(h.result.value) else [], PartsEvents(h.parts);
    assert result + (below + [e]) == result + below + [e];
  }

  lemma {:induction false} NothingOpen(p: OpenPart)
    requires p == OpenList([]) || p == OpenRecord([], None)
    ensures PartEvents(p) == [if p.OpenList? then StartArray else StartObject]
  {
    hide Linear;
    assert LinearItems([]) == [] && LinearMembers([]) == [];
  }

  lemma {:induction false} KeySpells(h: Shadow, s: State, key: Bytes, limits: ParseLimits)
    requires ShadowOf(h, s) && AddKey(s, key, limits).Ok?
    ensures Spelled(ShadowStep(h, Key(key))) == Spelled(h) + [Key(key)]
    ensures ShadowOf(ShadowStep(h, Key(key)), AddKey(s, key, limits).value)
  {
    hide Linear, Meaning, Proper, PartsEvents, PartEvents, MembersMeaning, ItemsMeaning, Spelled;
    var last := |h.parts| - 1;
    assert PartOf(h.parts[last], s.frames[last]);
    KeyEvents(h, key);
  }

  lemma {:induction false} KeyEvents(h: Shadow, key: Bytes)
    requires h.parts != [] && h.parts[|h.parts| - 1].OpenRecord? && h.parts[|h.parts| - 1].key.None?
    ensures Spelled(ShadowStep(h, Key(key))) == Spelled(h) + [Key(key)]
  {
    hide Linear, LinearMembers, LinearItems;
    var last := |h.parts| - 1;
    var p, r := h.parts[last], ShadowStep(h, Key(key));
    assert r.parts[..last] == h.parts[..last];
    var result, below, inner := if h.result.Some? then Linear(h.result.value) else [], PartsEvents(h.parts[..last]), LinearMembers(p.members);
    assert [StartObject] + inner + [] == [StartObject] + inner;
    assert result + (below + ([StartObject] + inner + [Key(key)])) == result + (below + ([StartObject] + inner)) + [Key(key)];
  }

  lemma {:induction false} EndSpells(h: Shadow, s: State, isArray: bool)
    requires ShadowOf(h, s) && EndContainer(s, isArray).Ok?
    ensures Spelled(CloseShadow(h)) == Spelled(h) + [if isArray then EndArray else EndObject]
    ensures ShadowOf(CloseShadow(h), EndContainer(s, isArray).value)
  {
    hide AddValue, AddDocument, Linear, ItemsMeaning, MembersMeaning, PartsEvents, PartEvents, Spelled;
    var last := |h.parts| - 1;
    var p, below := h.parts[last], h.(parts := h.parts[..last]);
    assert PartOf(p, s.frames[last]);
    var d := match p case OpenList(items) => List(items) case OpenRecord(members, _) => Record(members);
    AddDocumentSpells(below, s.(frames := s.frames[..last]), d);
    ClosedEvents(p, d, if isArray then EndArray else EndObject);
    ClosedSpells(h, Linear(d), if isArray then EndArray else EndObject);
  }

  lemma {:induction false} ClosedSpells(h: Shadow, events: seq<Event>, e: Event)
    requires h.parts != [] && events == PartEvents(h.parts[|h.parts| - 1]) + [e]
    ensures Spelled(h.(parts := h.parts[..|h.parts| - 1])) + events == Spelled(h) + [e]
  {
    hide Linear, PartEvents;
    var last := |h.parts| - 1;
    var result, parts, own := if h.result.Some? then Linear(h.result.value) else [], PartsEvents(h.parts[..last]), PartEvents(h.parts[last]);
    assert result + parts + (own + [e]) == result + (parts + own) + [e];
  }

  lemma {:induction false} ClosedEvents(p: OpenPart, d: Document, e: Event)
    requires match p
             case OpenList(items) => d == List(items) && e == EndArray
             case OpenRecord(members, key) => d == Record(members) && e == EndObject && key.None?
    ensures Linear(d) == PartEvents(p) + [e]
  {
    hide LinearItems, LinearMembers;
    if p.OpenRecord? {
      var inner := LinearMembers(p.members);
      assert [StartObject] + inner + [] == [StartObject] + inner;
    }
  }

  lemma {:induction false} RunSpells(h: Shadow, s: State, events: seq<Event>, limits: ParseLimits) returns (end: Shadow)
    requires ShadowOf(h, s) && Run(s, events, limits).Ok?
    ensures Spelled(end) == Spelled(h) + events && ShadowOf(end, Run(s, events, limits).value)
    decreases |events|
  {
    hide Step, ShadowOf, Spelled, ShadowStep;
    if events == [] {
      end := h;
      assert Spelled(h) + [] == Spelled(h);
    } else {
      StepSpells(h, s, events[0], limits);
      end := RunSpells(ShadowStep(h, events[0]), Step(s, events[0], limits).value, events[1..], limits);
      assert Spelled(h) + [events[0]] + events[1..] == Spelled(h) + events;
    }
  }

  // ---- Main result ------------------------------------------------------------------------------------

  lemma {:induction false} FittingAccepted(d: Document, limits: ParseLimits)
    requires Proper(d)
    ensures if Fits(d, limits) then Parse(Linear(d), limits) == Ok((Meaning(d), Total(d))) else Parse(Linear(d), limits).Err?
  {
    hide Linear, Meaning, Proper, Run, Total, Height;
    DocumentExact(INITIAL, d, limits);
  }

  lemma {:induction false} AcceptedSpells(events: seq<Event>, limits: ParseLimits) returns (d: Document)
    requires Parse(events, limits).Ok?
    ensures events == Linear(d) && Proper(d)
  {
    hide Linear, Meaning, Proper, Run;
    var none := Shadow([], None);
    var end := RunSpells(none, INITIAL, events, limits);
    d := end.result.value;
    assert PartsEvents([]) == [];
    assert Spelled(none) == [] && [] + events == events && Linear(d) + [] == Linear(d);
  }

  /** A sequence of events is accepted exactly when it spells one document, all of whose costs are within the limits; the
      value is what that document stands for, and the counters are its totals. */
  lemma {:induction false} AcceptsOneDocument(events: seq<Event>, limits: ParseLimits)
    ensures Parse(events, limits).Ok? <==> exists d :: events == Linear(d) && Fits(d, limits)
    ensures forall d :: events == Linear(d) && Fits(d, limits) ==> Parse(events, limits) == Ok((Meaning(d), Total(d)))
  {
    hide Parse, Linear, Meaning, Total, Within, Height, Proper;
    if Parse(events, limits).Ok? {
      var d := AcceptedSpells(events, limits);
      FittingAccepted(d, limits);
    }
    forall d | events == Linear(d) && Fits(d, limits)
      ensures Parse(events, limits) == Ok((Meaning(d), Total(d)))
    {
      FittingAccepted(d, limits);
    }
  }
}
