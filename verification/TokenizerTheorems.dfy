/** What tokenizing keeps of the source, and what every later stage may rely on. */
module TokenizerTheorems {
  import opened Base
  import opened Template
  import opened RenderTrace
  import opened Strings
  import opened SourceTree
  import opened TokenizerSpec
  import opened Tiling
  import opened ArchiveGraph
  import opened ArchiveLegality
  import opened Printer
  import opened Indentation

  // ---- Pieces and nodes ---------------------------------------------------------------------------

  lemma {:induction false} SpelledPlaced(item: Item, tmpl: Bytes, o: Options)
    requires Spelled(item, tmpl, o)
    ensures Placed(item, tmpl)
  {
    hide SpelledTag, ClosedBy, Settled, Classify;
    match item {
      case Literal(_, _, _, _) =>
      case Tag(head, spelling, from, to) => SpelledOrder(head, spelling, from, to, tmpl, o);
      case Block(head, spelling, from, body, close, to, items) =>
        SpelledOrder(head, spelling, from, body, tmpl, o);
        BlockCloses(items, head.name, body, close, to);
        forall i | 0 <= i < |items|
          ensures Placed(items[i], tmpl)
        {
          SpelledPlaced(items[i], tmpl, o);
        }
    }
  }

  lemma {:induction false} BlockCloses(items: seq<Item>, name: Bytes, body: nat, close: nat, to: nat)
    requires ClosedBy(items, name, close) && Tiles(items, body, to)
    ensures body <= close <= to
  {
    TilesOrdered(items, body, to);
  }

  lemma {:induction false} AllSpelledPlaced(items: seq<Item>, tmpl: Bytes, o: Options)
    requires AllSpelled(items, tmpl, o)
    ensures AllPlaced(items, tmpl)
  {
    hide Spelled, Placed;
    forall i | 0 <= i < |items|
      ensures Placed(items[i], tmpl)
    {
      SpelledPlaced(items[i], tmpl, o);
    }
  }

  // ---- Literal text is conserved --------------------------------------------------------------------

  /** The data of all output nodes, in document order. */
  function OutputText(n: Node): Bytes {
    match n
    case Null => []
    case Node(kind, _, data, children, _, _, _, _) =>
      (if kind.TypeOutput? && data.Some? then data.value else []) + OutputTextAll(children)
  }

  function OutputTextAll(ns: seq<Node>): Bytes {
    if ns == [] then [] else OutputText(ns[0]) + OutputTextAll(ns[1..])
  }

  lemma {:induction false} OutputTextConcat(a: seq<Node>, b: seq<Node>)
    ensures OutputTextAll(a + b) == OutputTextAll(a) + OutputTextAll(b)
  {
    if a == [] {
      assert a + b == b;
    } else {
      assert (a + b)[0] == a[0] && (a + b)[1..] == a[1..] + b;
      OutputTextConcat(a[1..], b);
    }
  }

  datatype Span = Span(from: nat, to: nat)

  /** Where the tags are, in document order. */
  function TagSpans(item: Item): seq<Span> {
    match item
    case Literal(_, _, _, _) => []
    case Tag(_, _, from, to) => [Span(from, to)]
    case Block(_, _, from, body, _, _, items) => [Span(from, body)] + TagSpansAll(items)
  }

  function TagSpansAll(items: seq<Item>): seq<Span> {
    if items == [] then [] else TagSpans(items[0]) + TagSpansAll(items[1..])
  }

  /** The spans lie in order between the two positions. */
  predicate InOrder(spans: seq<Span>, from: nat, to: nat) {
    if spans == [] then from <= to
    else from <= spans[0].from <= spans[0].to && InOrder(spans[1..], spans[0].to, to)
  }

  /** The text between the two positions with the spans cut out. */
  function Cut(tmpl: Bytes, spans: seq<Span>, from: nat, to: nat): Bytes
    requires InOrder(spans, from, to) && to <= |tmpl|
    decreases |spans|
  {
    if spans == [] then tmpl[from..to]
    else
      SpanWithin(spans, from, to);
      tmpl[from..spans[0].from] + Cut(tmpl, spans[1..], spans[0].to, to)
  }

  lemma {:induction false} SpanWithin(spans: seq<Span>, from: nat, to: nat)
    requires InOrder(spans, from, to)
    ensures from <= to && (spans != [] ==> spans[0].to <= to)
    decreases |spans|
  {
    if spans != [] {
      SpanWithin(spans[1..], spans[0].to, to);
    }
  }

  lemma {:induction false} CutConcat(tmpl: Bytes, a: seq<Span>, b: seq<Span>, from: nat, middle: nat, to: nat)
    requires InOrder(a, from, middle) && InOrder(b, middle, to) && to <= |tmpl| && middle <= |tmpl|
    ensures InOrder(a + b, from, to) && Cut(tmpl, a + b, from, to) == Cut(tmpl, a, from, middle) + Cut(tmpl, b, middle, to)
    decreases |a|
  {
    SpanWithin(a, from, middle);
    SpanWithin(b, middle, to);
    if a == [] {
      assert a + b == b;
      CutFrom(tmpl, b, from, middle, to);
    } else {
      assert (a + b)[0] == a[0] && (a + b)[1..] == a[1..] + b;
      CutConcat(tmpl, a[1..], b, a[0].to, middle, to);
      var x, y, z := tmpl[from..a[0].from], Cut(tmpl, a[1..], a[0].to, middle), Cut(tmpl, b, middle, to);
      assert x + (y + z) == (x + y) + z;
    }
  }

  lemma {:induction false} CutFrom(tmpl: Bytes, b: seq<Span>, from: nat, middle: nat, to: nat)
    requires from <= middle && InOrder(b, middle, to) && to <= |tmpl| && middle <= |tmpl|
    ensures InOrder(b, from, to) && Cut(tmpl, b, from, to) == tmpl[from..middle] + Cut(tmpl, b, middle, to)
  {
    SpanWithin(b, middle, to);
    if b == [] {
      assert tmpl[from..to] == tmpl[from..middle] + tmpl[middle..to];
    } else {
      var rest := Cut(tmpl, b[1..], b[0].to, to);
      assert tmpl[from..b[0].from] == tmpl[from..middle] + tmpl[middle..b[0].from];
      assert (tmpl[from..middle] + tmpl[middle..b[0].from]) + rest == tmpl[from..middle] + (tmpl[middle..b[0].from] + rest);
    }
  }

  lemma {:induction false} ItemConserves(item: Item, tmpl: Bytes, buffer: nat, o: Options)
    requires Spelled(item, tmpl, o) && !o.escapeOutput && item.from <= item.to
    ensures Placed(item, tmpl) && InOrder(TagSpans(item), item.from, item.to) && item.to <= |tmpl|
    ensures OutputTextAll(Erase(item, tmpl, buffer)) == Cut(tmpl, TagSpans(item), item.from, item.to)
    decreases item
  {
    hide SpelledTag, ClosedBy, Settled, Classify;
    SpelledPlaced(item, tmpl, o);
    match item {
      case Literal(_, _, from, to) =>
        OneOutput(Erase(item, tmpl, buffer)[0]);
      case Tag(head, spelling, from, to) =>
        SpelledOrder(head, spelling, from, to, tmpl, o);
        assert tmpl[from..from] == [] && tmpl[to..to] == [];
        if head.change.None? {
          OneOutput(Erase(item, tmpl, buffer)[0]);
          SpelledKind(head, spelling, from, to, tmpl, o);
        }
      case Block(head, spelling, from, body, close, to, items) =>
        SpelledOrder(head, spelling, from, body, tmpl, o);
        ItemsConserve(items, body, to, tmpl, buffer, o);
        SpanWithin(TagSpansAll(items), body, to);
        OneOutput(Erase(item, tmpl, buffer)[0]);
        assert (([Span(from, body)] + TagSpansAll(items))[1..]) == TagSpansAll(items);
    }
  }

  lemma {:induction false} OneOutput(n: Node)
    ensures OutputTextAll([n]) == OutputText(n)
  {
    assert [n][1..] == [];
  }

  /** A tag never becomes an output node. */
  lemma {:induction false} SpelledKind(head: Head, spelling: Spelling, from: nat, to: nat, tmpl: Bytes, o: Options)
    requires SpelledTag(head, spelling, from, to, tmpl, o)
    ensures head.kind.TypeVariable? || head.kind.TypeNegate? || head.kind.TypeSection? || head.kind.TypeStop?
            || head.kind.TypeComment? || head.kind.TypePartial?
    ensures head.flags == FLAG_NONE || (head.flags == FLAG_ESCAPE && head.kind.TypeVariable?)
  {
    hide Trim, Words, TagText;
  }

  lemma {:induction false} ItemsConserve(items: seq<Item>, from: nat, to: nat, tmpl: Bytes, buffer: nat, o: Options)
    requires Tiles(items, from, to) && to <= |tmpl| && AllSpelled(items, tmpl, o) && !o.escapeOutput
    ensures AllPlaced(items, tmpl) && InOrder(TagSpansAll(items), from, to)
    ensures OutputTextAll(EraseAll(items, tmpl, buffer)) == Cut(tmpl, TagSpansAll(items), from, to)
    decreases items
  {
    hide Spelled, Placed, Erase, TagSpans;
    AllSpelledPlaced(items, tmpl, o);
    if items == [] {
      assert tmpl[from..to] == [];
    } else {
      TilesOrdered(items[1..], items[0].to, to);
      ItemConserves(items[0], tmpl, buffer, o);
      ItemsConserve(items[1..], items[0].to, to, tmpl, buffer, o);
      CutConcat(tmpl, TagSpans(items[0]), TagSpansAll(items[1..]), from, items[0].to, to);
      OutputTextConcat(Erase(items[0], tmpl, buffer), EraseAll(items[1..], tmpl, buffer));
    }
  }

  // ---- Shape ------------------------------------------------------------------------------------------

  /** What a node from the tokenizer is on its own, its children aside. */
  lemma {:induction false} TagShape(head: Head, spelling: Spelling, from: nat, to: nat, tmpl: Bytes, o: Options)
    requires SpelledTag(head, spelling, from, to, tmpl, o)
    ensures ShapeAllowed(head.kind, head.flags, true, 0) && (Opens(head.kind) ==> ShapeAllowed(head.kind, head.flags, true, 1))
    ensures !Bit(head.flags, FLAG_PARTIAL_INDENT) && !head.kind.TypeRoot? && !head.kind.TypeContainer?
  {
    SpelledKind(head, spelling, from, to, tmpl, o);
  }

  lemma {:induction false} LiteralShape(flags: int, data: Bytes)
    requires flags == FLAG_NONE || flags == FLAG_LAMBDA_ONLY || (flags == FLAGS_MARKER && IsIndentation(data))
    ensures var n := Leaf(TypeOutput, flags, data); WellShaped(n, IsMarker(n)) && (IsMarker(n) <==> flags == FLAGS_MARKER)
    ensures Bit(flags, FLAG_PARTIAL_INDENT) <==> flags == FLAGS_MARKER
  {
    NoMarkers();
  }

  lemma {:induction false} LeafShape(n: Node)
    requires n.Node? && n.children == [] && ShapeAllowed(n.kind, n.flags, n.data.Some?, 0) && n.start.None? && n.stop.None?
    requires !Bit(n.flags, FLAG_PARTIAL_INDENT)
    ensures WellShaped(n, IsMarker(n)) && !IsMarker(n)
  {
    NoMarkers();
  }

  lemma {:induction false} BlockShape(head: Head, delims: Delims, children: seq<Node>, source: Option<Source>)
    requires ShapeAllowed(head.kind, head.flags, true, 1) && !Bit(head.flags, FLAG_PARTIAL_INDENT) && !head.kind.TypeRoot?
    requires MarkersPlaced(children) && WellShapedAll(children)
    ensures var n := BlockNode(head, delims, children, source); WellShaped(n, IsMarker(n)) && !IsMarker(n)
  {
  }

  lemma {:induction false} ItemShape(item: Item, tmpl: Bytes, buffer: nat, o: Options)
    requires Spelled(item, tmpl, o)
    ensures Placed(item, tmpl) && WellShapedAll(Erase(item, tmpl, buffer)) && ClosedAll(Erase(item, tmpl, buffer))
    ensures |Erase(item, tmpl, buffer)| <= 1
    ensures forall n :: n in Erase(item, tmpl, buffer) ==>
              n.Node? && (Bit(n.flags, FLAG_PARTIAL_INDENT) <==> IsMarkerItem(item)) && (IsMarkerItem(item) ==> IsMarker(n))
    ensures IsMarkerItem(item) ==> Erase(item, tmpl, buffer) != []
    ensures item.Tag? && item.head.change.None? ==>
              Erase(item, tmpl, buffer) == [Leaf(item.head.kind, item.head.flags, item.head.name)]
    decreases item, 1
  {
    hide SpelledTag, ClosedBy, Settled, Classify, WellShaped, ShapeAllowed, Closed, MarkersPlaced, IsMarker, OwnStop;
    SpelledPlaced(item, tmpl, o);
    match item {
      case Literal(flags, escaped, from, to) =>
        var text := tmpl[from..to];
        LiteralShape(flags, if escaped then Escaped(text) else text);
        OneShaped(Erase(item, tmpl, buffer)[0]);
        LeafClosed(TypeOutput, flags, if escaped then Escaped(text) else text);
      case Tag(head, spelling, from, to) =>
        TagShape(head, spelling, from, to, tmpl, o);
        LeafShape(Leaf(head.kind, head.flags, head.name));
        OneShaped(Leaf(head.kind, head.flags, head.name));
        LeafClosed(head.kind, head.flags, head.name);
      case Block(head, spelling, from, body, close, to, items) =>
        TagShape(head, spelling, from, body, tmpl, o);
        AllSpelledPlaced(items, tmpl, o);
        ItemsShape(items, tmpl, buffer, o);
        var children := EraseAll(items, tmpl, buffer);
        BlockShape(head, spelling.delims, children, Some(SourceSlice(buffer, tmpl, body, close - body)));
        OneShaped(Erase(item, tmpl, buffer)[0]);
        ClosedByStop(items, head.name, close, tmpl, buffer, o);
        BlockClosed(head, spelling.delims, children, Some(SourceSlice(buffer, tmpl, body, close - body)));
    }
  }

  lemma {:induction false} OneShaped(n: Node)
    ensures WellShapedAll([n]) <==> WellShaped(n, IsMarker(n))
    ensures ClosedAll([n]) <==> Closed(n)
  {
    assert [n][1..] == [];
  }

  lemma {:induction false} LeafClosed(kind: Type, flags: int, data: Bytes)
    requires !kind.TypeContainer? && !Opens(kind)
    ensures Closed(Leaf(kind, flags, data))
  {
  }

  lemma {:induction false} BlockClosed(head: Head, delims: Delims, children: seq<Node>, source: Option<Source>)
    requires OwnStop(children, Some(head.name)) && ClosedAll(children) && !head.kind.TypeContainer?
    ensures Closed(BlockNode(head, delims, children, source))
  {
  }

  /** The closing tag is the last child and the only one. */
  lemma {:induction false} ClosedByStop(items: seq<Item>, name: Bytes, close: nat, tmpl: Bytes, buffer: nat, o: Options)
    requires ClosedBy(items, name, close) && AllPlaced(items, tmpl) && AllSpelled(items, tmpl, o)
    ensures OwnStop(EraseAll(items, tmpl, buffer), Some(name))
  {
    hide Spelled;
    var n := |items| - 1;
    assert items == items[..n] + [items[n]];
    EraseSnoc(items[..n], items[n], tmpl, buffer);
    NoStopAmong(items[..n], tmpl, buffer, o);
  }

  lemma {:induction false} NoStopAmong(items: seq<Item>, tmpl: Bytes, buffer: nat, o: Options)
    requires StopFree(items) && AllPlaced(items, tmpl) && AllSpelled(items, tmpl, o)
    ensures forall n :: n in EraseAll(items, tmpl, buffer) ==> !IsStop(n)
  {
    if items != [] {
      NoStopAmong(items[1..], tmpl, buffer, o);
      assert !IsTagOf(items[0], TypeStop) && Spelled(items[0], tmpl, o);
    }
  }

  lemma {:induction false} ItemsShape(items: seq<Item>, tmpl: Bytes, buffer: nat, o: Options)
    requires AllSpelled(items, tmpl, o) && Settled(items)
    ensures AllPlaced(items, tmpl)
    ensures var ns := EraseAll(items, tmpl, buffer); WellShapedAll(ns) && ClosedAll(ns) && MarkersPlaced(ns)
    decreases items, 0
  {
    hide Spelled, Placed, Erase, WellShaped, Closed, MarkersPlaced, IsMarker, Bit;
    AllSpelledPlaced(items, tmpl, o);
    if items == [] {
      NoMarkers();
    } else {
      var first, rest := Erase(items[0], tmpl, buffer), EraseAll(items[1..], tmpl, buffer);
      ItemShape(items[0], tmpl, buffer, o);
      SettledTail(items);
      ItemsShape(items[1..], tmpl, buffer, o);
      if first == [] {
        assert first + rest == rest;
      } else {
        assert first == [first[0]] && first[0] in first;
        assert (first + rest)[1..] == rest && first[1..] == [];
        MarkersCons(first[0], rest);
        if IsMarkerItem(items[0]) {
          ItemShape(items[1], tmpl, buffer, o);
          assert items[1..][0] == items[1];
          assert rest[0] == Erase(items[1], tmpl, buffer)[0];
        }
      }
    }
  }

  lemma {:induction false} SettledTail(items: seq<Item>)
    requires items != [] && Settled(items)
    ensures Settled(items[1..])
    ensures IsMarkerItem(items[0]) ==> |items| > 1 && IsTagOf(items[1], TypePartial)
  {
    forall i | 0 <= i < |items[1..]| && IsMarkerItem(items[1..][i])
      ensures i + 1 < |items[1..]| && IsTagOf(items[1..][i + 1], TypePartial)
    {
      assert IsMarkerItem(items[i + 1]);
    }
  }
}
