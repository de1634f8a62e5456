/** What values render: which of them count as empty, and what sections, inverted sections and variables make of them. */
module RenderedValues {
  import opened Base
  import opened Strings
  import opened Template
  import opened RenderTrace
  import opened RenderLimits
  import opened ValueLookup
  import opened Indentation

  // ---- Emptiness ----------------------------------------------------------------------------------------

  /** There is something to it: bytes, the truth, an item or a key. Every number counts. */
  ghost predicate Offers(d: Data) {
    match d
    case NoData => false
    case Text(value) => |value| > 0
    case Boolean(truth) => truth
    case Number(_) => true
    case List(items) => |items| > 0
    case Array(items) => |items| > 0
    case Object(entries) => exists key :: key in entries
  }

  /** The text a value has as it is. */
  function OwnText(d: Data): Bytes {
    match d
    case Text(value) => value
    case Boolean(truth) => if truth then ['t' as int, 'r' as int, 'u' as int, 'e' as int] else []
    case Number(spelling) => spelling
    case NoData => []
    case List(_) => []
    case Array(_) => []
    case Object(_) => []
  }

  /** A value is empty exactly when there is nothing to it; for texts and booleans this is to have no text. */
  lemma {:induction false} EmptyExactly(d: Data)
    ensures IsEmpty(d) <==> !Offers(d)
    ensures d.Text? || d.Boolean? ==> (IsEmpty(d) <==> OwnText(d) == [])
    ensures Spelling(d) == OwnText(d)
  {
    if d.Object? && d.entries != map[] {
      var key :| key in d.entries;
    }
  }

  // ---- Nodes outside of line frames ------------------------------------------------------------------------

  function NodeText(n: Node, c: Context, stack: seq<Data>, depth: nat): Bytes
    requires stack != [] && depth <= NESTING_CEILING
  {
    Output(TraceNode(n, c, stack, None, depth, None, false).events)
  }

  function ChildrenText(ns: seq<Node>, c: Context, stack: seq<Data>, depth: nat): Bytes
    requires stack != [] && depth <= NESTING_CEILING
  {
    Output(TraceChildren(ns, c, stack, None, depth).events)
  }

  /** A tag that renders by the value of its name. */
  predicate Interpolates(n: Node, kind: Type) {
    n.Node? && n.kind == kind && n.data.Some? && !Bit(n.flags, FLAG_PARTIAL_INDENT)
  }

  lemma {:induction false} BodyText(n: Node, c: Context, stack: seq<Data>, depth: nat)
    requires n.Node? && Objection(n, false).None? && stack != [] && depth < NESTING_CEILING
    ensures NodeText(n, c, stack, depth) == Output(TraceBody(n, c, stack, None, depth, None).events)
  {
    hide TraceBody, Objection;
    var body := TraceBody(n, c, stack, None, depth, None).events;
    OutputConcat([Enter(depth), Visit], body);
    assert [Enter(depth), Visit][1..] == [Visit] && [Visit][1..] == [];
    assert Output([Visit]) == [] && [] + body == body;
    assert Output([Enter(depth), Visit]) == [] && [] + Output(body) == Output(body);
  }

  lemma {:induction false} TextOfNothing()
    ensures Output([]) == [] && BeginTag(None) == Traced([], None)
  {
  }

  lemma {:induction false} TextAfterTag(t: Traced)
    ensures Output(Then(BeginTag(None), t).events) == Output(t.events)
  {
    assert [] + t.events == t.events;
  }

  /** The children once for each item in turn, with the item as the innermost context. */
  function ItemsText(ns: seq<Node>, items: seq<Data>, c: Context, stack: seq<Data>, depth: nat): Bytes
    requires stack != [] && depth <= NESTING_CEILING
  {
    Flatten(seq(|items|, i requires 0 <= i < |items| => ChildrenText(ns, c, stack + [items[i]], depth)))
  }

  lemma {:induction false} ContextsText(ns: seq<Node>, items: seq<Data>, c: Context, stack: seq<Data>, depth: nat)
    requires stack != [] && depth <= NESTING_CEILING
    ensures Output(TraceContexts(ns, items, c, stack, None, depth).events) == ItemsText(ns, items, c, stack, depth)
    decreases |items|
  {
    hide TraceChildren, TraceContexts;
    if items == [] {
      NoContexts(ns, c, stack, None, depth);
    } else {
      assert items[0..] == items;
      var once, others := ContextSteps(ns, items, 0, c, stack, None, depth);
      ChildrenFrameless(ns, c, stack + [items[0]], depth);
      ContextsText(ns, items[1..], c, stack, depth);
      OutputConcat(once.events, others.events);
      var texts := seq(|items|, i requires 0 <= i < |items| => ChildrenText(ns, c, stack + [items[i]], depth));
      var rest := seq(|items[1..]|, i requires 0 <= i < |items[1..]| => ChildrenText(ns, c, stack + [items[1..][i]], depth));
      assert texts[1..] == rest;
    }
  }

  lemma {:induction false} NoItems(ns: seq<Node>, c: Context, stack: seq<Data>, depth: nat)
    requires stack != [] && depth <= NESTING_CEILING
    ensures ItemsText(ns, [], c, stack, depth) == []
  {
  }

  lemma {:induction false} OneItemText(ns: seq<Node>, item: Data, c: Context, stack: seq<Data>, depth: nat)
    requires stack != [] && depth <= NESTING_CEILING
    ensures ItemsText(ns, [item], c, stack, depth) == ChildrenText(ns, c, stack + [item], depth)
  {
    hide ChildrenText;
    var items, text := [item], ChildrenText(ns, c, stack + [item], depth);
    var texts := seq(|items|, i requires 0 <= i < |items| => ChildrenText(ns, c, stack + [items[i]], depth));
    assert texts == [text];
    assert Flatten([text]) == text + Flatten([text][1..]) == text + [] == text;
  }

  // ---- Sections, inverted sections, variables ----------------------------------------------------------------

  /** What a section makes of its value. */
  ghost function SectionText(ns: seq<Node>, value: Data, c: Context, stack: seq<Data>, depth: nat): Bytes
    requires stack != [] && depth <= NESTING_CEILING
  {
    if value.List? || value.Array? then ItemsText(ns, value.items, c, stack, depth)
    else if Offers(value) then ChildrenText(ns, c, stack + [value], depth)
    else []
  }

  lemma {:induction false} ValueTags()
    ensures HasData(TypeSection) && HasData(TypeNegate) && HasData(TypeVariable)
    ensures !HasNoString(TypeSection) && !HasNoString(TypeNegate) && !HasNoString(TypeVariable)
  {
  }

  /** A section renders its children once for each item of a list or array, in order and with the item as the innermost context;
      for any other value with something to it, once with that value as the innermost context; and otherwise nothing. */
  lemma {:induction false} SectionRenders(n: Node, c: Context, stack: seq<Data>, depth: nat)
    requires Interpolates(n, TypeSection) && stack != [] && depth < NESTING_CEILING
    ensures (forall value :: !Resolves(n, stack, c.strict, value)) ==> NodeText(n, c, stack, depth) == []
    ensures forall value :: Resolves(n, stack, c.strict, value) ==>
              NodeText(n, c, stack, depth) == SectionText(n.children, value, c, stack, depth + 1)
  {
    hide Lookup, TraceContexts, TraceChildren, Resolves, HasData, HasNoString, IsEmpty, Bit, ItemsText, ChildrenText, NodeText;
    var found := Lookup(n, stack, c.strict);
    ValueTags();
    AllResolve(n, stack, c.strict);
    BodyText(n, c, stack, depth);
    TextOfNothing();
    if found.Some? {
      EmptyExactly(found.value);
      var contexts := SectionContexts(found.value);
      TextAfterTag(TraceContexts(n.children, contexts, c, stack, None, depth + 1));
      ContextsText(n.children, contexts, c, stack, depth + 1);
      NoItems(n.children, c, stack, depth + 1);
      OneItemText(n.children, found.value, c, stack, depth + 1);
    }
  }

  /** An inverted section renders its children once, in the contexts around it, exactly when there is no value or nothing to it. */
  lemma {:induction false} InvertedSectionRenders(n: Node, c: Context, stack: seq<Data>, depth: nat)
    requires Interpolates(n, TypeNegate) && stack != [] && depth < NESTING_CEILING
    ensures (forall value :: Resolves(n, stack, c.strict, value) ==> !Offers(value)) ==>
              NodeText(n, c, stack, depth) == ChildrenText(n.children, c, stack, depth + 1)
    ensures forall value :: Resolves(n, stack, c.strict, value) && Offers(value) ==> NodeText(n, c, stack, depth) == []
  {
    hide Lookup, TraceChildren, Resolves, HasData, HasNoString, IsEmpty, Offers, Bit, NodeText;
    var found := Lookup(n, stack, c.strict);
    ValueTags();
    AllResolve(n, stack, c.strict);
    BodyText(n, c, stack, depth);
    TextOfNothing();
    TextAfterTag(TraceChildren(n.children, c, stack, None, depth + 1));
    if found.Some? {
      EmptyExactly(found.value);
    }
  }

  /** A variable renders the text of its value, escaped if the tag says so, and nothing where there is none. */
  lemma {:induction false} VariableRenders(n: Node, c: Context, stack: seq<Data>, depth: nat)
    requires Interpolates(n, TypeVariable) && stack != [] && depth < NESTING_CEILING
    ensures (forall value :: !Resolves(n, stack, c.strict, value)) ==> NodeText(n, c, stack, depth) == []
    ensures forall value :: Resolves(n, stack, c.strict, value) ==>
              NodeText(n, c, stack, depth) == if Bit(n.flags, FLAG_ESCAPE) then Escaped(OwnText(value)) else OwnText(value)
  {
    hide Lookup, Resolves, HasData, HasNoString, IsEmpty, Bit, NodeText, Escaped;
    var found := Lookup(n, stack, c.strict);
    ValueTags();
    AllResolve(n, stack, c.strict);
    BodyText(n, c, stack, depth);
    TextOfNothing();
    NothingEscaped();
    if found.Some? {
      var value := found.value;
      EmptyExactly(value);
      TextAfterTag(Traced(ValueEvents(n, value), None));
      OutText(if Bit(n.flags, FLAG_ESCAPE) then Escaped(OwnText(value)) else OwnText(value));
    }
  }

  lemma {:induction false} NothingEscaped()
    ensures Escaped([]) == []
  {
  }

  lemma {:induction false} OutText(bytes: Bytes)
    ensures Output([Out(bytes)]) == bytes
  {
    assert [Out(bytes)][1..] == [];
    assert bytes + [] == bytes;
  }

  /** Text is rendered as it is, unless it is there for callbacks only; comments and closing tags render nothing. */
  lemma {:induction false} SourceRenders(n: Node, c: Context, stack: seq<Data>, depth: nat)
    requires n.Node? && n.data.Some? && !Bit(n.flags, FLAG_PARTIAL_INDENT) && stack != [] && depth < NESTING_CEILING
    ensures n.kind.TypeOutput? ==>
              NodeText(n, c, stack, depth) == if Bit(n.flags, FLAG_LAMBDA_ONLY) then [] else n.data.value
    ensures n.kind.TypeComment? || n.kind.TypeStop? ==> NodeText(n, c, stack, depth) == []
  {
    hide Lookup, IsEmpty, Bit, NodeText;
    BodyText(n, c, stack, depth);
    TextOfNothing();
    OutText(n.data.value);
  }
}
