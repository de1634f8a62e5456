/** What rendering a tree means: the sequence of events it intends, whatever the limits; and the limits that cut it. */
module RenderTrace {
  import opened Base
  import opened Template

  const NESTING_CEILING: nat := 256

  // ---- Data -----------------------------------------------------------------------------------

  /** Values to render; numbers come already spelled. */
  datatype Data =
    | NoData
    | Text(value: Bytes)
    | Boolean(truth: bool)
    | Number(spelling: Bytes)
    | List(items: seq<Data>)
    | Array(items: seq<Data>)
    | Object(entries: map<Bytes, Data>)

  predicate IsEmpty(d: Data) {
    match d
    case NoData => true
    case Text(value) => value == []
    case Boolean(truth) => !truth
    case Number(_) => false
    case List(items) => items == []
    case Array(items) => items == []
    case Object(entries) => entries == map[]
  }

  const TRUE: Bytes := ['t' as int, 'r' as int, 'u' as int, 'e' as int]

  function Spelling(d: Data): Bytes {
    match d
    case Text(value) => value
    case Boolean(truth) => if truth then TRUE else []
    case Number(spelling) => spelling
    case _ => []
  }

  function FindInMap(d: Data, key: Bytes): Option<Data> {
    if d.Object? && key in d.entries then Some(d.entries[key]) else None
  }

  // ---- Dotted names -----------------------------------------------------------------------------

  /** The position of the first `b` at or after `from`. */
  function IndexOf(s: Bytes, b: byte, from: nat): (r: Option<nat>)
    requires from <= |s|
    ensures r.Some? ==> from <= r.value < |s| && s[r.value] == b && forall i :: from <= i < r.value ==> s[i] != b
    ensures r.None? ==> forall i :: from <= i < |s| ==> s[i] != b
    decreases |s| - from
  {
    if from == |s| then None else if s[from] == b then Some(from) else IndexOf(s, b, from + 1)
  }

  /** The components of s from `from` on, split at every dot. */
  function Split(s: Bytes, from: nat): (r: seq<Bytes>)
    requires from <= |s|
    ensures r != []
    decreases |s| - from
  {
    var dot := IndexOf(s, DOT, from);
    if dot.None? then [s[from..]] else [s[from..dot.value]] + Split(s, dot.value + 1)
  }

  /** The components a node keeps: none unless its type can be dotted and its data has a dot. */
  function DataParts(n: Node): seq<Bytes>
    requires n.Node?
  {
    if HasDot(n.kind) && n.data.Some? && IndexOf(n.data.value, DOT, 0).Some? then Split(n.data.value, 0) else []
  }

  // ---- Lookup -------------------------------------------------------------------------------------

  /** The innermost context that has the key. */
  function FindInStack(stack: seq<Data>, key: Bytes): Option<Data> {
    if stack == [] then None
    else
      var found := FindInMap(stack[|stack| - 1], key);
      if found.Some? then found else FindInStack(stack[..|stack| - 1], key)
  }

  function FindPath(d: Data, path: seq<Bytes>): Option<Data> {
    if path == [] then Some(d)
    else
      var found := FindInMap(d, path[0]);
      if found.None? then None else FindPath(found.value, path[1..])
  }

  /** Only the first component searches the enclosing contexts; `.` is the current one. */
  function Lookup(n: Node, stack: seq<Data>, strict: bool): Option<Data>
    requires n.Node? && n.data.Some? && stack != []
  {
    var name, current := n.data.value, stack[|stack| - 1];
    if name == [DOT] then Some(current)
    else if strict then FindInMap(current, name)
    else
      var parts := DataParts(n);
      if parts == [] then FindInStack(stack, name)
      else
        var first := FindInStack(stack, parts[0]);
        if first.None? then None else FindPath(first.value, parts[1..])
  }

  // ---- Escaping -------------------------------------------------------------------------------------

  const AMP: Bytes := ['&' as int, 'a' as int, 'm' as int, 'p' as int, ';' as int]
  const QUOT: Bytes := ['&' as int, 'q' as int, 'u' as int, 'o' as int, 't' as int, ';' as int]
  const APOS: Bytes := ['&' as int, '#' as int, '0' as int, '3' as int, '9' as int, ';' as int]
  const LT: Bytes := ['&' as int, 'l' as int, 't' as int, ';' as int]
  const GT: Bytes := ['&' as int, 'g' as int, 't' as int, ';' as int]

  function EscapedByte(b: byte): (r: Bytes)
    ensures |r| >= 1
  {
    if b == '&' as int then AMP
    else if b == '"' as int then QUOT
    else if b == '\'' as int then APOS
    else if b == '<' as int then LT
    else if b == '>' as int then GT
    else [b]
  }

  function Escaped(s: Bytes): (r: Bytes)
    ensures |r| >= |s|
  {
    if s == [] then [] else EscapedByte(s[0]) + Escaped(s[1..])
  }

  // ---- Events ---------------------------------------------------------------------------------------

  datatype Event =
    | Enter(depth: nat)
    | Visit
    | Out(bytes: Bytes)
    | Abort(error: Error)

  /** The line state of the partial being rendered. */
  datatype Frame = Frame(components: seq<Bytes>, atLineStart: bool)

  /** The events intended, and the line state they leave. */
  datatype Traced = Traced(events: seq<Event>, frame: Option<Frame>)

  function Outs(components: seq<Bytes>): (r: seq<Event>)
    ensures |r| == |components|
  {
    seq(|components|, i requires 0 <= i < |components| => Out(components[i]))
  }

  function AtLine(frame: Option<Frame>, start: bool): Option<Frame> {
    if frame.Some? then Some(frame.value.(atLineStart := start)) else None
  }

  /** The indentation due before the next literal byte or tag. */
  function Due(frame: Option<Frame>): seq<Event> {
    if frame.Some? && frame.value.atLineStart then Outs(frame.value.components) else []
  }

  function BeginTag(frame: Option<Frame>): Traced {
    Traced(Due(frame), AtLine(frame, false))
  }

  /** Literal text under a frame, line by line. */
  function Lines(value: Bytes, frame: Option<Frame>): Traced
    requires frame.Some?
    decreases |value|
  {
    if value == [] then Traced([], frame)
    else
      var newline := IndexOf(value, NEWLINE, 0);
      if newline.None? then Traced(Due(frame) + [Out(value)], AtLine(frame, false))
      else
        var rest := Lines(value[newline.value + 1..], AtLine(frame, true));
        Traced(Due(frame) + [Out(value[..newline.value + 1])] + rest.events, rest.frame)
  }

  function TemplateOutput(value: Bytes, frame: Option<Frame>): Traced {
    if frame.None? then Traced([Out(value)], frame) else Lines(value, frame)
  }

  /** Source text that is not rendered: an empty one marks the boundary of a stripped tag. */
  function ConsumeSource(value: Bytes, frame: Option<Frame>): Option<Frame> {
    AtLine(frame, value != [] && value[|value| - 1] == NEWLINE)
  }

  function Then(first: Traced, second: Traced): Traced {
    Traced(first.events + second.events, second.frame)
  }

  // ---- The intended events of a tree --------------------------------------------------------------------

  /** The partials a template can reach: `Null` where there is none of that name. */
  type Env = Bytes -> Node

  datatype Context = Context(env: Env, strict: bool)

  function AbortTrace(e: Error, frame: Option<Frame>): Traced {
    Traced([Abort(e)], frame)
  }

  /** The indentation a marker carries to the partial after it; None if the child is no marker. */
  function PartialIndentation(child: Node, next: Node): Result<Option<Bytes>> {
    if child.Null? || !Bit(child.flags, FLAG_PARTIAL_INDENT) then Ok(None)
    else if IsMarker(child) && next.Node? && next.kind.TypePartial? then Ok(Some(child.data.value))
    else Err(InvalidIndentation)
  }

  function PartialComponents(frame: Option<Frame>, indentation: Option<Bytes>): seq<Bytes> {
    if indentation.None? then []
    else
      (if frame.Some? then frame.value.components else []) +
      (if indentation.value != [] then [indentation.value] else [])
  }

  /** The contexts a section is rendered in, one after the other. */
  function SectionContexts(d: Data): seq<Data> {
    match d
    case NoData => []
    case List(items) => items
    case Array(items) => items
    case _ => [d]
  }

  function ValueEvents(n: Node, d: Data): seq<Event>
    requires n.Node?
  {
    if d.Text? || d.Boolean? || d.Number? then
      [Out(if Bit(n.flags, FLAG_ESCAPE) then Escaped(Spelling(d)) else Spelling(d))]
    else []
  }

  /** Why a node is refused before anything of it is rendered. */
  function Objection(n: Node, meta: bool): Option<Error>
    requires n.Node?
  {
    if Bit(n.flags, FLAG_PARTIAL_INDENT) && !(meta && IsMarker(n)) then Some(InvalidIndentation)
    else if !HasNoString(n.kind) && n.data.None? then Some(EmptyTag)
    else if HasData(n.kind) && n.data.None? then Some(NodeWithoutData)
    else None
  }

  function TraceNode(n: Node, c: Context, stack: seq<Data>, frame: Option<Frame>, depth: nat,
                     indentation: Option<Bytes>, meta: bool): Traced
    requires stack != [] && depth <= NESTING_CEILING
    decreases NESTING_CEILING - depth, 0, 0
  {
    if n.Null? then AbortTrace(EmptyTreeNode, frame)
    else if depth >= NESTING_CEILING then Traced([Enter(depth)], frame)
    else if Objection(n, meta).Some? then Traced([Enter(depth), Visit, Abort(Objection(n, meta).value)], frame)
    else
      var body := TraceBody(n, c, stack, frame, depth, indentation);
      Traced([Enter(depth), Visit] + body.events, body.frame)
  }

  function TraceBody(n: Node, c: Context, stack: seq<Data>, frame: Option<Frame>, depth: nat,
                     indentation: Option<Bytes>): Traced
    requires n.Node? && stack != [] && depth < NESTING_CEILING
    requires Objection(n, true).None? || Objection(n, false).None?
    decreases NESTING_CEILING - depth - 1, 3, 0
  {
    var value := if HasData(n.kind) then Lookup(n, stack, c.strict) else None;
    var empty := value.None? || IsEmpty(value.value);
    var tag := BeginTag(frame);
    match n.kind
    case TypeNone => Traced([], frame)
    case TypeComment => tag
    case TypeStop => tag
    case TypeInlinePartial => tag
    case TypeRoot => TraceChildren(n.children, c, stack, frame, depth + 1)
    case TypeOutput =>
      if Bit(n.flags, FLAG_LAMBDA_ONLY) then Traced([], ConsumeSource(n.data.value, frame))
      else TemplateOutput(n.data.value, frame)
    case TypeContainer =>
      if n.child.Null? then AbortTrace(EmptyContainer, frame)
      else TraceNode(n.child, c, stack, frame, depth + 1, None, false)
    case TypeTag => if empty then tag else Then(tag, Traced(ValueEvents(n, value.value), tag.frame))
    case TypeVariable => if empty then tag else Then(tag, Traced(ValueEvents(n, value.value), tag.frame))
    case TypeNegate => if empty then Then(tag, TraceChildren(n.children, c, stack, tag.frame, depth + 1)) else tag
    case TypeSection =>
      if empty then tag
      else Then(tag, TraceContexts(n.children, SectionContexts(value.value), c, stack, tag.frame, depth + 1))
    case TypePartial =>
      var partial := c.env(n.data.value);
      if partial.Null? then tag
      else
        var inner := Some(Frame(PartialComponents(frame, indentation), true));
        Traced(tag.events + TraceNode(partial, c, stack, inner, depth + 1, None, false).events, tag.frame)
    case TypeOther(_) => AbortTrace(UnknownNodeType, frame)
  }

  /** The children from the first of ns on; a marker is rendered together with the partial it precedes. */
  function TraceChildren(ns: seq<Node>, c: Context, stack: seq<Data>, frame: Option<Frame>, depth: nat): Traced
    requires stack != [] && depth <= NESTING_CEILING
    decreases NESTING_CEILING - depth, 1, |ns|
  {
    if ns == [] then Traced([], frame)
    else
      var indentation := PartialIndentation(ns[0], if |ns| > 1 then ns[1] else Null);
      if indentation.Err? then AbortTrace(indentation.error, frame)
      else if indentation.value.Some? && |ns| > 1 then
        var marker := TraceNode(ns[0], c, stack, frame, depth, None, true);
        var partial := TraceNode(ns[1], c, stack, marker.frame, depth, indentation.value, false);
        Then(Then(marker, partial), TraceChildren(ns[2..], c, stack, partial.frame, depth))
      else
        var child := TraceNode(ns[0], c, stack, frame, depth, None, false);
        Then(child, TraceChildren(ns[1..], c, stack, child.frame, depth))
  }

  /** The children once for each context, each time on top of the stack. */
  function TraceContexts(ns: seq<Node>, contexts: seq<Data>, c: Context, stack: seq<Data>, frame: Option<Frame>,
                         depth: nat): Traced
    requires stack != [] && depth <= NESTING_CEILING
    decreases NESTING_CEILING - depth, 2, |contexts|
  {
    if contexts == [] then Traced([], frame)
    else
      var once := TraceChildren(ns, c, stack + [contexts[0]], frame, depth);
      Then(once, TraceContexts(ns, contexts[1..], c, stack, once.frame, depth))
  }

  // ---- One line of literal text ---------------------------------------------------------------------

  lemma {:induction false} IndexInSuffix(s: Bytes, b: byte, from: nat)
    requires from <= |s|
    ensures IndexOf(s, b, from).Some? <==> IndexOf(s[from..], b, 0).Some?
    ensures IndexOf(s, b, from).Some? ==> IndexOf(s[from..], b, 0) == Some(IndexOf(s, b, from).value - from)
  {
    var here, there := IndexOf(s, b, from), IndexOf(s[from..], b, 0);
    if here.Some? {
      assert s[from..][here.value - from] == b;
    }
    if there.Some? {
      assert s[from + there.value] == b;
    }
  }

  /** The text from `offset` on is the due indentation, then the rest of the line, then the lines after it. */
  lemma {:induction false} LinesStep(value: Bytes, offset: nat, frame: Option<Frame>) returns (line: Traced)
    requires offset < |value| && frame.Some?
    ensures Lines(value[offset..], frame) == Then(BeginTag(frame), line)
    ensures var newline, after := IndexOf(value, NEWLINE, offset), AtLine(frame, false);
            line == if newline.None? then Traced([Out(value[offset..])], after)
                    else Then(Traced([Out(value[offset..newline.value + 1])], after),
                              Lines(value[newline.value + 1..], AtLine(after, true)))
  {
    IndexInSuffix(value, NEWLINE, offset);
    var newline, after := IndexOf(value, NEWLINE, offset), AtLine(frame, false);
    if newline.None? {
      line := Traced([Out(value[offset..])], after);
    } else {
      var size := newline.value - offset + 1;
      assert value[offset..][..size] == value[offset..newline.value + 1];
      assert value[offset..][size..] == value[newline.value + 1..];
      line := Then(Traced([Out(value[offset..newline.value + 1])], after), Lines(value[newline.value + 1..], AtLine(after, true)));
    }
  }

  lemma {:induction false} NoLines(frame: Option<Frame>)
    requires frame.Some?
    ensures Lines([], frame) == Traced([], frame)
  {
  }

  // ---- One node of the trace --------------------------------------------------------------------------

  /** What a node that may be entered and visited still intends. */
  function Admitted(n: Node, c: Context, stack: seq<Data>, frame: Option<Frame>, depth: nat, indentation: Option<Bytes>,
                    meta: bool): Traced
    requires n.Node? && stack != [] && depth < NESTING_CEILING
  {
    if Objection(n, meta).Some? then AbortTrace(Objection(n, meta).value, frame)
    else TraceBody(n, c, stack, frame, depth, indentation)
  }

  lemma {:induction false} NodeSteps(n: Node, c: Context, stack: seq<Data>, frame: Option<Frame>, depth: nat,
                                     indentation: Option<Bytes>, meta: bool)
    requires n.Node? && stack != [] && depth < NESTING_CEILING
    ensures TraceNode(n, c, stack, frame, depth, indentation, meta)
         == Then(Traced([Enter(depth)], frame),
                 Then(Traced([Visit], frame), Admitted(n, c, stack, frame, depth, indentation, meta)))
  {
    hide TraceBody, Objection;
  }

  // ---- One step of the children and of the contexts -------------------------------------------------

  lemma {:induction false} NoChildren(c: Context, stack: seq<Data>, frame: Option<Frame>, depth: nat)
    requires stack != [] && depth <= NESTING_CEILING
    ensures TraceChildren([], c, stack, frame, depth) == Traced([], frame)
  {
  }

  lemma {:induction false} MarkerHasPartial(rest: seq<Node>)
    requires rest != [] && PartialIndentation(rest[0], if |rest| > 1 then rest[1] else Null).Ok?
    requires PartialIndentation(rest[0], if |rest| > 1 then rest[1] else Null).value.Some?
    ensures |rest| > 1
  {
  }

  lemma {:induction false} MarkerSteps(rest: seq<Node>, c: Context, stack: seq<Data>, frame: Option<Frame>, depth: nat)
    returns (first: Traced, second: Traced, third: Traced)
    requires stack != [] && depth <= NESTING_CEILING && |rest| > 1
    requires PartialIndentation(rest[0], rest[1]).Ok? && PartialIndentation(rest[0], rest[1]).value.Some?
    ensures first == TraceNode(rest[0], c, stack, frame, depth, None, true)
    ensures second == TraceNode(rest[1], c, stack, first.frame, depth, PartialIndentation(rest[0], rest[1]).value, false)
    ensures third == TraceChildren(rest[1..][1..], c, stack, second.frame, depth)
    ensures TraceChildren(rest, c, stack, frame, depth) == Then(first, Then(second, third))
  {
    hide TraceNode, PartialIndentation;
    first := TraceNode(rest[0], c, stack, frame, depth, None, true);
    second := TraceNode(rest[1], c, stack, first.frame, depth, PartialIndentation(rest[0], rest[1]).value, false);
    assert rest[1..][1..] == rest[2..];
    third := TraceChildren(rest[2..], c, stack, second.frame, depth);
  }

  lemma {:induction false} ChildSteps(rest: seq<Node>, c: Context, stack: seq<Data>, frame: Option<Frame>, depth: nat)
    returns (first: Traced, second: Traced)
    requires stack != [] && depth <= NESTING_CEILING && rest != []
    requires PartialIndentation(rest[0], if |rest| > 1 then rest[1] else Null) == Ok(None)
    ensures first == TraceNode(rest[0], c, stack, frame, depth, None, false)
    ensures second == TraceChildren(rest[1..], c, stack, first.frame, depth)
    ensures TraceChildren(rest, c, stack, frame, depth) == Then(first, second)
  {
    hide TraceNode, PartialIndentation;
    first := TraceNode(rest[0], c, stack, frame, depth, None, false);
    second := TraceChildren(rest[1..], c, stack, first.frame, depth);
  }

  lemma {:induction false} ContextSteps(ns: seq<Node>, contexts: seq<Data>, i: nat, c: Context, stack: seq<Data>,
                                        frame: Option<Frame>, depth: nat) returns (once: Traced, others: Traced)
    requires stack != [] && depth <= NESTING_CEILING && i < |contexts|
    ensures once == TraceChildren(ns, c, stack + [contexts[i]], frame, depth)
    ensures others == TraceContexts(ns, contexts[i + 1..], c, stack, once.frame, depth)
    ensures TraceContexts(ns, contexts[i..], c, stack, frame, depth) == Then(once, others)
  {
    hide TraceChildren;
    once := TraceChildren(ns, c, stack + [contexts[i]], frame, depth);
    assert contexts[i..][1..] == contexts[i + 1..];
    others := TraceContexts(ns, contexts[i + 1..], c, stack, once.frame, depth);
  }

  lemma {:induction false} NoContexts(ns: seq<Node>, c: Context, stack: seq<Data>, frame: Option<Frame>, depth: nat)
    requires stack != [] && depth <= NESTING_CEILING
    ensures TraceContexts(ns, [], c, stack, frame, depth) == Traced([], frame)
  {
  }

  function PartialTrace(n: Node, c: Context, stack: seq<Data>, frame: Option<Frame>, depth: nat,
                        indentation: Option<Bytes>): Traced
    requires n.Node? && n.data.Some? && stack != [] && depth < NESTING_CEILING
  {
    var tag, partial := BeginTag(frame), c.env(n.data.value);
    if partial.Null? then tag
    else
      var inner := Some(Frame(PartialComponents(frame, indentation), true));
      Then(tag, Traced(TraceNode(partial, c, stack, inner, depth + 1, None, false).events, tag.frame))
  }
}
