/** Writing a value down as parse events and reading it back. */
module JsonRoundTrip {
  import opened Base
  import opened Json

  // ---- The events of a value ------------------------------------------------------------------------------

  function Concat(parts: seq<seq<Event>>): seq<Event> {
    if parts == [] then [] else Concat(parts[..|parts| - 1]) + parts[|parts| - 1]
  }

  /** The parts of an object: each key, and the events of its value. */
  function Keyed(keys: seq<Bytes>, parts: seq<seq<Event>>): seq<Event>
    requires |parts| == |keys|
  {
    if keys == [] then []
    else
      var last := |keys| - 1;
      Keyed(keys[..last], parts[..last]) + ([Key(keys[last])] + parts[last])
  }

  /** The keys of an object, each once, in any order. */
  ghost predicate Lists(keys: seq<Bytes>, entries: map<Bytes, Value>) {
    (forall i, j :: 0 <= i < j < |keys| ==> keys[i] != keys[j]) && forall key :: key in keys <==> key in entries
  }

  /** These events are one way of writing the value down. The members of an object come in any order; an integer that is not
      negative comes signed or unsigned. */
  ghost predicate EventsOf(v: Value, events: seq<Event>)
    decreases v
  {
    match v
    case NullValue => events == [NullEvent]
    case BooleanValue(truth) => events == [BooleanEvent(truth)]
    case IntegerValue(integer) =>
      -9223372036854775808 <= integer <= 9223372036854775807
      && (events == [IntegerEvent(integer)] || (integer >= 0 && events == [UnsignedEvent(integer)]))
    case FloatValue(spelling) => events == [FloatEvent(Some(spelling), true)]
    case StringValue(text) => events == [StringEvent(text)]
    case ArrayValue(items) =>
      exists parts: seq<seq<Event>> ::
        |parts| == |items| && (forall i :: 0 <= i < |items| ==> EventsOf(items[i], parts[i]))
        && events == [StartArray] + Concat(parts) + [EndArray]
    case ObjectValue(entries) =>
      exists keys: seq<Bytes>, parts: seq<seq<Event>> ::
        |parts| == |keys| && Lists(keys, entries)
        && (forall i :: 0 <= i < |keys| && keys[i] in entries ==> EventsOf(entries[keys[i]], parts[i]))
        && events == [StartObject] + Keyed(keys, parts) + [EndObject]
  }

  // ---- What reading them costs --------------------------------------------------------------------------------

  /** A value starts here. */
  predicate Starts(e: Event) {
    !e.Key? && !e.EndObject? && !e.EndArray?
  }

  /** The values among the events, nested ones included. */
  function Values(events: seq<Event>): nat {
    if events == [] then 0 else Values(events[..|events| - 1]) + if Starts(events[|events| - 1]) then 1 else 0
  }

  function TextOf(e: Event): Bytes {
    match e
    case StringEvent(text) => text
    case Key(key) => key
    case FloatEvent(Some(spelling), _) => spelling
    case _ => []
  }

  /** The bytes of strings, keys and floating-point spellings. */
  function TextBytes(events: seq<Event>): nat {
    if events == [] then 0 else TextBytes(events[..|events| - 1]) + |TextOf(events[|events| - 1])|
  }

  /** How many containers are open after the events. */
  function Open(events: seq<Event>): int {
    if events == [] then 0
    else
      var last := events[|events| - 1];
      Open(events[..|events| - 1])
      + if last.StartObject? || last.StartArray? then 1 else if last.EndObject? || last.EndArray? then -1 else 0
  }

  /** No value is nested deeper than that. */
  predicate Shallow(events: seq<Event>, depth: int) {
    forall i :: 0 <= i < |events| && Starts(events[i]) ==> Open(events[..i]) < depth
  }

  lemma {:induction false} CostConcat(a: seq<Event>, b: seq<Event>)
    ensures Values(a + b) == Values(a) + Values(b) && TextBytes(a + b) == TextBytes(a) + TextBytes(b)
    ensures Open(a + b) == Open(a) + Open(b)
    decreases |b|
  {
    hide Starts, TextOf;
    if b == [] {
      assert a + b == a;
    } else {
      var last := |b| - 1;
      assert (a + b)[..|a + b| - 1] == a + b[..last];
      CostConcat(a, b[..last]);
    }
  }

  lemma {:induction false} CostOne(e: Event)
    ensures Values([e]) == (if Starts(e) then 1 else 0) && TextBytes([e]) == |TextOf(e)|
    ensures Open([e]) == if e.StartObject? || e.StartArray? then 1 else if e.EndObject? || e.EndArray? then -1 else 0
    ensures forall depth: int :: Shallow([e], depth) <==> (Starts(e) ==> 0 < depth)
  {
    hide Starts, TextOf;
    assert [e][..0] == [] && [e][0] == e;
    assert Open([e][..0]) == 0;
  }

  lemma {:induction false} ShallowConcat(a: seq<Event>, b: seq<Event>, depth: int)
    ensures Shallow(a + b, depth) <==> Shallow(a, depth) && Shallow(b, depth - Open(a))
  {
    hide Starts, Open;
    forall i | 0 <= i < |a|
      ensures (a + b)[i] == a[i] && (a + b)[..i] == a[..i]
    {
    }
    forall i | 0 <= i < |b|
      ensures (a + b)[|a| + i] == b[i] && Open((a + b)[..|a| + i]) == Open(a) + Open(b[..i])
    {
      assert (a + b)[..|a| + i] == a + b[..i];
      CostConcat(a, b[..i]);
    }
    if Shallow(a + b, depth) {
      forall i | 0 <= i < |b| && Starts(b[i])
        ensures Open(b[..i]) < depth - Open(a)
      {
        assert Starts((a + b)[|a| + i]);
      }
      forall i | 0 <= i < |a| && Starts(a[i])
        ensures Open(a[..i]) < depth
      {
        assert Starts((a + b)[i]);
      }
    }
    if Shallow(a, depth) && Shallow(b, depth - Open(a)) {
      forall i | 0 <= i < |a + b| && Starts((a + b)[i])
        ensures Open((a + b)[..i]) < depth
      {
        if i >= |a| {
          assert (a + b)[|a| + (i - |a|)] == b[i - |a|];
        }
      }
    }
  }

  /** The costs of three stretches in a row. */
  lemma {:induction false} Enclosed(a: Event, inner: seq<Event>, b: Event, depth: int)
    ensures Values([a] + inner + [b]) == Values([a]) + Values(inner) + Values([b])
    ensures TextBytes([a] + inner + [b]) == TextBytes([a]) + TextBytes(inner) + TextBytes([b])
    ensures Open([a] + inner + [b]) == Open([a]) + Open(inner) + Open([b])
    ensures Shallow([a] + inner + [b], depth)
            <==> Shallow([a], depth) && Shallow(inner, depth - Open([a])) && Shallow([b], depth - Open([a]) - Open(inner))
  {
    hide Values, TextBytes, Open, Shallow;
    CostConcat([a] + inner, [b]);
    CostConcat([a], inner);
    ShallowConcat([a] + inner, [b], depth);
    ShallowConcat([a], inner, depth);
  }

  /** The totals of a document are the costs of its events: besides the first value, every value is an entry of a container. */
  lemma {:induction false} DocumentCosts(d: Document, depth: int)
    requires Proper(d)
    ensures var es, t := Linear(d), Total(d);
            t.nodes == Values(es) > 0 && t.strings == TextBytes(es) && t.entries == Values(es) - 1 && Open(es) == 0
    ensures Shallow(Linear(d), depth) <==> Height(d) <= depth
    decreases d, 1
  {
    hide Values, TextBytes, Open, Shallow, ItemsTotal, MembersTotal, ItemsHeight, MembersHeight, LinearItems, LinearMembers;
    match d {
      case Scalar(event) =>
        CostOne(event);
        ScalarCost(event);
      case List(items) =>
        CostOne(StartArray);
        CostOne(EndArray);
        ItemsCosts(items, depth - 1);
        Enclosed(StartArray, LinearItems(items), EndArray, depth);
      case Record(members) =>
        CostOne(StartObject);
        CostOne(EndObject);
        MembersCosts(members, depth - 1);
        Enclosed(StartObject, LinearMembers(members), EndObject, depth);
    }
  }

  lemma {:induction false} ScalarCost(e: Event)
    requires IsScalar(e)
    ensures Starts(e) && |TextOf(e)| == StringCost(e) && !e.StartObject? && !e.StartArray? && !e.EndObject? && !e.EndArray?
  {
  }

  lemma {:induction false} ItemsCosts(items: seq<Document>, depth: int)
    requires forall i :: 0 <= i < |items| ==> Proper(items[i])
    ensures var es, t := LinearItems(items), ItemsTotal(items);
            t.nodes == Values(es) && t.strings == TextBytes(es) && t.entries == Values(es) - |items| && Open(es) == 0
    ensures depth >= 0 ==> (Shallow(LinearItems(items), depth) <==> ItemsHeight(items) <= depth)
    decreases items, 0
  {
    hide Total, Height, Linear, Proper, Starts, TextOf, Shallow;
    if items == [] {
      NoCosts(depth);
    } else {
      var last := |items| - 1;
      ItemsCosts(items[..last], depth);
      DocumentCosts(items[last], depth);
      CostConcat(LinearItems(items[..last]), Linear(items[last]));
      ShallowConcat(LinearItems(items[..last]), Linear(items[last]), depth);
    }
  }

  lemma {:induction false} NoCosts(depth: int)
    ensures Values([]) == 0 && TextBytes([]) == 0 && Open([]) == 0 && Shallow([], depth)
  {
  }

  lemma {:induction false} MembersCosts(members: seq<Member>, depth: int)
    requires forall i :: 0 <= i < |members| ==> Proper(members[i].document)
    ensures var es, t := LinearMembers(members), MembersTotal(members);
            t.nodes == Values(es) && t.strings == TextBytes(es) && t.entries == Values(es) && Open(es) == 0
    ensures depth >= 0 ==> (Shallow(LinearMembers(members), depth) <==> MembersHeight(members) <= depth)
    decreases members, 0
  {
    hide Total, Height, Linear, Proper, Shallow, Starts, TextOf;
    if members == [] {
      NoCosts(depth);
    } else {
      var last := |members| - 1;
      var before, own := LinearMembers(members[..last]), [Key(members[last].key)] + Linear(members[last].document);
      MembersCosts(members[..last], depth);
      DocumentCosts(members[last].document, depth);
      MemberCosts(members[last].key, Linear(members[last].document), depth);
      CostConcat(before, own);
      ShallowConcat(before, own, depth);
    }
  }

  lemma {:induction false} MemberCosts(key: Bytes, own: seq<Event>, depth: int)
    ensures var es := [Key(key)] + own;
            Values(es) == Values(own) && TextBytes(es) == |key| + TextBytes(own) && Open(es) == Open(own)
            && (Shallow(es, depth) <==> Shallow(own, depth))
  {
    hide Values, TextBytes, Open, Shallow;
    CostOne(Key(key));
    CostConcat([Key(key)], own);
    ShallowConcat([Key(key)], own, depth);
  }

  // ---- The document behind the events -----------------------------------------------------------------------------

  lemma {:induction false} ScalarOf(v: Value, events: seq<Event>)
    requires EventsOf(v, events) && !v.ArrayValue? && !v.ObjectValue?
    ensures events != [] && var d := Scalar(events[0]); Proper(d) && Linear(d) == events && Meaning(d) == v
  {
  }

  lemma {:induction false} ArrayParts(v: Value, events: seq<Event>) returns (parts: seq<seq<Event>>)
    requires v.ArrayValue? && EventsOf(v, events)
    ensures |parts| == |v.items| && (forall i :: 0 <= i < |v.items| ==> EventsOf(v.items[i], parts[i]))
    ensures events == [StartArray] + Concat(parts) + [EndArray]
  {
    hide Concat;
    parts :| |parts| == |v.items| && (forall i :: 0 <= i < |v.items| ==> EventsOf(v.items[i], parts[i]))
             && events == [StartArray] + Concat(parts) + [EndArray];
  }

  lemma {:induction false} ObjectParts(v: Value, events: seq<Event>) returns (keys: seq<Bytes>, parts: seq<seq<Event>>)
    requires v.ObjectValue? && EventsOf(v, events)
    ensures |parts| == |keys| && Lists(keys, v.entries)
    ensures forall i :: 0 <= i < |keys| ==> keys[i] in v.entries && EventsOf(v.entries[keys[i]], parts[i])
    ensures events == [StartObject] + Keyed(keys, parts) + [EndObject]
  {
    hide Keyed, Lists;
    keys, parts :| |parts| == |keys| && Lists(keys, v.entries)
                   && (forall i :: 0 <= i < |keys| && keys[i] in v.entries ==> EventsOf(v.entries[keys[i]], parts[i]))
                   && events == [StartObject] + Keyed(keys, parts) + [EndObject];
    AllListed(keys, v.entries);
  }

  /** Every way of writing a value down is a document that means the value. */
  lemma {:induction false} DocumentOf(v: Value, events: seq<Event>) returns (d: Document)
    requires EventsOf(v, events)
    ensures Proper(d) && Linear(d) == events && Meaning(d) == v
    decreases v, 1
  {
    hide EventsOf, Lists, LinearItems, LinearMembers, ItemsMeaning, MembersMeaning, Concat, Keyed;
    match v {
      case ArrayValue(items) =>
        var parts := ArrayParts(v, events);
        var ds := ItemsOf(items, parts);
        d := List(ds);
      case ObjectValue(entries) =>
        var keys, parts := ObjectParts(v, events);
        var ms := MembersOf(v, keys, parts, |keys|);
        assert keys[..|keys|] == keys && parts[..|keys|] == parts;
        MembersMean(ms, keys, entries);
        d := Record(ms);
      case _ =>
        ScalarOf(v, events);
        d := Scalar(events[0]);
    }
  }

  lemma {:induction false} AllListed(keys: seq<Bytes>, entries: map<Bytes, Value>)
    requires Lists(keys, entries)
    ensures forall i :: 0 <= i < |keys| ==> keys[i] in entries
  {
    assert forall i :: 0 <= i < |keys| ==> keys[i] in keys;
  }

  lemma {:induction false} ItemsOf(items: seq<Value>, parts: seq<seq<Event>>) returns (ds: seq<Document>)
    requires |parts| == |items| && forall i :: 0 <= i < |items| ==> EventsOf(items[i], parts[i])
    ensures |ds| == |items| && forall i :: 0 <= i < |ds| ==> Proper(ds[i])
    ensures LinearItems(ds) == Concat(parts) && ItemsMeaning(ds) == items
    decreases items, 0
  {
    hide EventsOf, Proper, Linear, Meaning;
    if items == [] {
      ds := [];
    } else {
      var last := |items| - 1;
      var before := ItemsOf(items[..last], parts[..last]);
      var d := DocumentOf(items[last], parts[last]);
      ds := before + [d];
      assert ds[..last] == before && items == items[..last] + [items[last]];
    }
  }

  lemma {:induction false} MembersOf(v: Value, keys: seq<Bytes>, parts: seq<seq<Event>>, n: nat) returns (ms: seq<Member>)
    requires v.ObjectValue? && n <= |keys| == |parts|
    requires forall i :: 0 <= i < |keys| ==> keys[i] in v.entries && EventsOf(v.entries[keys[i]], parts[i])
    ensures |ms| == n && LinearMembers(ms) == Keyed(keys[..n], parts[..n])
    ensures forall i :: 0 <= i < n ==>
              ms[i].key == keys[i] && Proper(ms[i].document) && Meaning(ms[i].document) == v.entries[keys[i]]
    decreases v, 0, n
  {
    hide EventsOf, Proper, Linear, Meaning;
    if n == 0 {
      ms := [];
    } else {
      var last := n - 1;
      var before := MembersOf(v, keys, parts, last);
      var d := DocumentOf(v.entries[keys[last]], parts[last]);
      ms := before + [Member(keys[last], d)];
      assert ms[..last] == before;
      assert keys[..n][..last] == keys[..last] && parts[..n][..last] == parts[..last];
    }
  }

  /** The members of an object mean exactly its entries. */
  lemma {:induction false} MembersMean(ms: seq<Member>, keys: seq<Bytes>, entries: map<Bytes, Value>)
    requires |ms| == |keys| && Lists(keys, entries)
    requires forall i :: 0 <= i < |ms| ==> Proper(ms[i].document)
    requires forall i :: 0 <= i < |ms| ==>
               ms[i].key == keys[i] && keys[i] in entries && Meaning(ms[i].document) == entries[keys[i]]
    ensures MembersMeaning(ms) == entries
  {
    hide Proper, Meaning, MembersMeaning;
    var m := MembersMeaning(ms);
    forall key
      ensures key in m <==> key in entries
      ensures key in m ==> m[key] == entries[key]
    {
      ObjectOfMembers(ms, key);
      if key in entries {
        var i :| 0 <= i < |keys| && keys[i] == key;
        assert LastOf(ms, i, key);
      }
    }
  }

  // ---- Reading it back --------------------------------------------------------------------------------------------

  /** There is room for every value, every byte of text and every entry, and no value is too deep. */
  predicate RoomFor(events: seq<Event>, limits: ParseLimits) {
    && Values(events) <= limits.maxNodes && TextBytes(events) <= limits.maxStringBytes
    && Values(events) - 1 <= limits.maxContainerEntries && Shallow(events, limits.maxNestingDepth) && Shallow(events, 256)
  }

  /** However a value is written down, reading it back gives the value, at the cost of what was written, exactly when there is
      room for that. */
  lemma {:induction false} ReadsBack(v: Value, events: seq<Event>, limits: ParseLimits)
    requires EventsOf(v, events)
    ensures if RoomFor(events, limits) then
              Values(events) > 0
              && Parse(events, limits) == Ok((v, Counters(Values(events), TextBytes(events), Values(events) - 1)))
            else Parse(events, limits).Err?
  {
    hide Parse, EventsOf, Proper, Total, Values, TextBytes, Shallow, Linear, Meaning, Json.Height;
    var d := DocumentOf(v, events);
    DocumentCosts(d, limits.maxNestingDepth);
    DocumentCosts(d, 256);
    FittingAccepted(d, limits);
  }

  /** A number that is no value: an integer that takes more than 63 bits, or a floating-point number that is not finite or has
      no proper spelling. */
  predicate NoNumber(e: Event) {
    (e.UnsignedEvent? && e.unsigned > 9223372036854775807) || (e.FloatEvent? && (e.spelling.None? || !e.finite))
  }

  /** Such a number is refused wherever it stands. */
  lemma {:induction false} NoNumberRefused(events: seq<Event>, i: nat, limits: ParseLimits)
    requires i < |events| && NoNumber(events[i])
    ensures Parse(events, limits).Err?
  {
    hide Step, Run;
    RunConcat(INITIAL, events[..i], events[i..], limits);
    assert events == events[..i] + events[i..];
    var before := Run(INITIAL, events[..i], limits);
    if before.Ok? {
      RunConcat(before.value, [events[i]], events[i + 1..], limits);
      assert events[i..] == [events[i]] + events[i + 1..];
      RunOne(before.value, events[i], limits);
      StepRefuses(before.value, events[i], limits);
    }
  }

  lemma {:induction false} StepRefuses(s: State, e: Event, limits: ParseLimits)
    requires NoNumber(e)
    ensures Step(s, e, limits).Err?
  {
    hide BeginValue, AddValue, AddString;
  }
}
