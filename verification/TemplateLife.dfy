/** From source text to every later form and back: what the stages promise together. */
module TemplateLife {
  import opened Base
  import opened Template
  import opened RenderTrace
  import RenderLimits
  import opened SourceTree
  import opened TokenizerSpec
  import opened Tiling
  import opened TokenizerTheorems
  import opened TokenizerResults
  import opened DelimiterChanges
  import opened Printer
  import opened Codec
  import opened Decoder
  import opened CodecTheorems
  import opened ArchiveGraph
  import ArchiveBuilder
  import ArchiveWriter
  import opened Indentation

  // ---- The legacy format ------------------------------------------------------------------------------

  /** The widths of the legacy format: children, data and the bytes of the children. */
  predicate FitsFormat(n: Node) {
    match n
    case Null => true
    case Node(_, _, data, children, _, _, _, _) =>
      |children| <= MAX_CHILDREN && (data.Some? ==> |data.value| < MAX_DATA_SIZE) && |EncodingAll(children)| <= MAX_UINT32
      && FitsFormatAll(children)
  }

  predicate FitsFormatAll(ns: seq<Node>) {
    ns == [] || (FitsFormat(ns[0]) && FitsFormatAll(ns[1..]))
  }

  /** Nothing is lost in a format without delimiters and source text: every section has the default delimiters and its
      source is what its children print. */
  predicate Expendable(n: Node) {
    match n
    case Null => true
    case Node(_, _, _, children, _, start, stop, _) =>
      (start.Some? ==> start.value == OPEN) && (stop.Some? ==> stop.value == CLOSE) && SourceExpendable(n)
      && ExpendableAll(children)
  }

  predicate ExpendableAll(ns: seq<Node>) {
    ns == [] || (Expendable(ns[0]) && ExpendableAll(ns[1..]))
  }

  lemma {:induction false} ExpendableConcat(a: seq<Node>, b: seq<Node>)
    requires ExpendableAll(a) && ExpendableAll(b)
    ensures ExpendableAll(a + b)
  {
    if a == [] {
      assert a + b == b;
    } else {
      assert (a + b)[0] == a[0] && (a + b)[1..] == a[1..] + b;
      ExpendableConcat(a[1..], b);
    }
  }

  lemma {:induction false} ItemExpendable(item: Item, tmpl: Bytes, buffer: nat, o: Options)
    requires Spelled(item, tmpl, o) && Uniform(item, DEFAULT) && Plain(item) && o.escapeByDefault && !o.escapeOutput
    ensures Placed(item, tmpl) && ExpendableAll(Erase(item, tmpl, buffer))
    decreases item, 1
  {
    hide SpelledTag, ClosedBy, Settled, Classify, PlainTag, NodesText;
    SpelledPlaced(item, tmpl, o);
    if item.Block? {
      AllSpelledPlaced(item.items, tmpl, o);
      ItemsExpendable(item.items, tmpl, buffer, o);
      var n := Erase(item, tmpl, buffer)[0];
      if item.head.kind.TypeSection? {
        ChildrenAfterParse(item, DEFAULT, tmpl, buffer, o);
      }
      assert [n][1..] == [];
    } else {
      LeavesExpendable(Erase(item, tmpl, buffer));
    }
  }

  lemma {:induction false} LeavesExpendable(ns: seq<Node>)
    requires |ns| <= 1 && forall n :: n in ns ==> n.Node? && n.children == [] && n.start.None? && n.stop.None? && n.source.None?
    ensures ExpendableAll(ns)
  {
    if ns != [] {
      assert ns[0] in ns && ns[1..] == [];
    }
  }

  lemma {:induction false} ItemsExpendable(items: seq<Item>, tmpl: Bytes, buffer: nat, o: Options)
    requires AllSpelled(items, tmpl, o) && AllUniform(items, DEFAULT) && AllPlain(items) && o.escapeByDefault && !o.escapeOutput
    ensures AllPlaced(items, tmpl) && ExpendableAll(EraseAll(items, tmpl, buffer))
    decreases items, 0
  {
    hide Spelled, Uniform, Plain, Placed, Erase, Expendable;
    AllSpelledPlaced(items, tmpl, o);
    if items != [] {
      ItemExpendable(items[0], tmpl, buffer, o);
      ItemsExpendable(items[1..], tmpl, buffer, o);
      ExpendableConcat(Erase(items[0], tmpl, buffer), EraseAll(items[1..], tmpl, buffer));
    }
  }

  lemma {:induction false} PlacedMarkersScan(ns: seq<Node>, i: nat)
    requires MarkersPlaced(ns) && i <= |ns|
    ensures MarkersFrom(ns, i)
    decreases |ns| - i
  {
    hide IsMarker;
    if i < |ns| {
      PlacedMarkersScan(ns, i + 1);
      if i + 1 < |ns| {
        PlacedMarkersScan(ns, i + 2);
      }
    }
  }

  lemma {:induction false} ShapedEncodable(n: Node, marker: bool)
    requires WellShaped(n, marker) && Expendable(n) && FitsFormat(n)
    ensures Encodable(n, marker)
    decreases n, 1
  {
    hide MarkersPlaced, MarkersFrom, Bit, EncodingAll, SourceExpendable;
    PlacedMarkersScan(n.children, 0);
    ShapedEncodableAll(n.children);
  }

  lemma {:induction false} ShapedEncodableAll(ns: seq<Node>)
    requires WellShapedAll(ns) && ExpendableAll(ns) && FitsFormatAll(ns)
    ensures EncodableAll(ns)
    decreases ns, 0
  {
    hide WellShaped, Expendable, FitsFormat, Encodable, IsMarker;
    if ns != [] {
      ShapedEncodable(ns[0], IsMarker(ns[0]));
      ShapedEncodableAll(ns[1..]);
    }
  }

  /** A template with the default delimiters and plain tags survives the legacy format: within its widths, and under the
      limits that follow from the tokenizer's, the writer accepts its tree and printing what the reader makes of the bytes
      gives the template back. */
  lemma {:induction false} PlainTemplateSurvives(tmpl: Bytes, buffer: nat, o: Options, limits: SerializationLimits)
    requires Pieces(tmpl, DEFAULT, o).Ok? && o.escapeByDefault && !o.escapeOutput
    requires AllPlain(Pieces(tmpl, DEFAULT, o).value)
    requires limits.maxNestingDepth >= o.limits.maxNestingDepth + 2 && limits.maxNodes >= o.limits.maxNodes + 1
    requires limits.maxDataPartsPerNode >= o.limits.maxTagBytes + 1
    requires limits.maxDataParts >= o.limits.maxInputBytes + o.limits.maxNodes
    ensures AllPlaced(Pieces(tmpl, DEFAULT, o).value, tmpl)
    ensures var root := TreeOf(Pieces(tmpl, DEFAULT, o).value, tmpl, buffer);
            FitsFormat(root) && |Encoding(root)| <= limits.maxOutputBytes && |Encoding(root)| <= limits.maxInputBytes ==>
              Accepts(root, limits)
              && Decode(Encoding(root), limits).Ok? && NodeText(Decode(Encoding(root), limits).value, OPEN, CLOSE) == tmpl
  {
    hide Pieces, Spelled, Tiles, Settled, Uniform, Plain, NodesText, WellShaped, Closed, Expendable, FitsFormat, Encodable;
    hide Encoding, Decode, Height, NodeCount, PartsWithin, PartCount, Stored;
    var items := PiecesRun(tmpl, DEFAULT, o);
    var root := TreeOf(items, tmpl, buffer);
    TokenizedTreeIsFit(tmpl, DEFAULT, buffer, o);
    PlainIsUniform(tmpl, o);
    PrintAfterParse(tmpl, buffer, o);
    ItemsExpendable(items, tmpl, buffer, o);
    RootExpendable(EraseAll(items, tmpl, buffer));
    if FitsFormat(root) && |Encoding(root)| <= limits.maxOutputBytes && |Encoding(root)| <= limits.maxInputBytes {
      ShapedEncodable(root, false);
      PartsMonotone(root, o.limits.maxTagBytes + 1, limits.maxDataPartsPerNode);
      DecodeAfterEncode(root, limits);
      StoredPrints(root, OPEN, CLOSE);
    }
  }

  lemma {:induction false} RootExpendable(ns: seq<Node>)
    requires ExpendableAll(ns)
    ensures Expendable(RootNode(ns))
  {
    hide ExpendableAll;
  }

  lemma {:induction false} PartsMonotone(n: Node, less: nat, more: nat)
    requires PartsWithin(n, less) && less <= more
    ensures PartsWithin(n, more)
    decreases n, 1
  {
    if n.Node? {
      PartsAllMonotone(n.children, less, more);
    }
  }

  lemma {:induction false} PartsAllMonotone(ns: seq<Node>, less: nat, more: nat)
    requires PartsWithinAll(ns, less) && less <= more
    ensures PartsWithinAll(ns, more)
    decreases ns, 0
  {
    if ns != [] {
      PartsMonotone(ns[0], less, more);
      PartsAllMonotone(ns[1..], less, more);
    }
  }

  // ---- The archive --------------------------------------------------------------------------------------

  lemma {:induction false} StorableConcat(a: seq<Node>, b: seq<Node>, texts: map<nat, Bytes>)
    requires ArchiveBuilder.StorableAll(a) && ArchiveBuilder.StorableAll(b)
    requires ArchiveBuilder.SharedAll(a, texts) && ArchiveBuilder.SharedAll(b, texts)
    ensures ArchiveBuilder.StorableAll(a + b) && ArchiveBuilder.SharedAll(a + b, texts)
  {
    if a == [] {
      assert a + b == b;
    } else {
      assert (a + b)[0] == a[0] && (a + b)[1..] == a[1..] + b;
      StorableConcat(a[1..], b, texts);
    }
  }

  lemma {:induction false} ItemStorable(item: Item, tmpl: Bytes, buffer: nat, o: Options)
    requires Spelled(item, tmpl, o)
    ensures Placed(item, tmpl) && ArchiveBuilder.StorableAll(Erase(item, tmpl, buffer))
    ensures ArchiveBuilder.SharedAll(Erase(item, tmpl, buffer), map[buffer := tmpl])
    decreases item, 1
  {
    hide SpelledTag, ClosedBy, Settled, Classify;
    SpelledPlaced(item, tmpl, o);
    match item {
      case Literal(_, _, _, _) => OneStorable(Erase(item, tmpl, buffer)[0], map[buffer := tmpl]);
      case Tag(head, spelling, from, to) =>
        SpelledKind(head, spelling, from, to, tmpl, o);
        if head.change.None? {
          OneStorable(Erase(item, tmpl, buffer)[0], map[buffer := tmpl]);
        }
      case Block(head, spelling, from, body, close, to, items) =>
        SpelledKind(head, spelling, from, body, tmpl, o);
        AllSpelledPlaced(items, tmpl, o);
        ItemsStorable(items, tmpl, buffer, o);
        OneStorable(Erase(item, tmpl, buffer)[0], map[buffer := tmpl]);
    }
  }

  lemma {:induction false} OneStorable(n: Node, texts: map<nat, Bytes>)
    requires n.Node? && ArchiveBuilder.NodeStorable(n) && ArchiveBuilder.OwnShared(n, texts)
    requires ArchiveBuilder.StorableAll(n.children) && ArchiveBuilder.SharedAll(n.children, texts)
    ensures ArchiveBuilder.StorableAll([n]) && ArchiveBuilder.SharedAll([n], texts)
    ensures ArchiveBuilder.Storable(n) && ArchiveBuilder.Shared(n, texts)
  {
    hide ArchiveBuilder.NodeStorable, ArchiveBuilder.OwnShared;
    var one, none: seq<Node> := [n], [];
    assert one[1..] == none && one[0] == n;
    assert ArchiveBuilder.StorableAll(none) && ArchiveBuilder.SharedAll(none, texts);
    assert ArchiveBuilder.Storable(n) && ArchiveBuilder.Shared(n, texts);
  }

  lemma {:induction false} ItemsStorable(items: seq<Item>, tmpl: Bytes, buffer: nat, o: Options)
    requires AllSpelled(items, tmpl, o)
    ensures AllPlaced(items, tmpl) && ArchiveBuilder.StorableAll(EraseAll(items, tmpl, buffer))
    ensures ArchiveBuilder.SharedAll(EraseAll(items, tmpl, buffer), map[buffer := tmpl])
    decreases items, 0
  {
    hide Spelled, Placed, Erase, ArchiveBuilder.Storable, ArchiveBuilder.Shared;
    AllSpelledPlaced(items, tmpl, o);
    if items != [] {
      ItemStorable(items[0], tmpl, buffer, o);
      ItemsStorable(items[1..], tmpl, buffer, o);
      StorableConcat(Erase(items[0], tmpl, buffer), EraseAll(items[1..], tmpl, buffer), map[buffer := tmpl]);
    }
  }

  /** Every accepted template can be archived as far as its shape goes: the builder finds every field storable and one
      text behind its sections, and the validator has nothing to object to. */
  lemma {:induction false} TemplateArchives(tmpl: Bytes, delims: Delims, buffer: nat, o: Options)
    requires Usable(delims) && Pieces(tmpl, delims, o).Ok?
    ensures AllPlaced(Pieces(tmpl, delims, o).value, tmpl)
    ensures var root := TreeOf(Pieces(tmpl, delims, o).value, tmpl, buffer);
            ArchiveBuilder.Storable(root) && ArchiveBuilder.Shared(root, map[buffer := tmpl]) && ArchiveWriter.Presentable(root, [])
  {
    hide Pieces, Spelled, Tiles, Settled, WellShaped, Closed, Height, NodeCount, PartsWithin, PartCount;
    var items := PiecesRun(tmpl, delims, o);
    TokenizedTreeIsFit(tmpl, delims, buffer, o);
    ItemsStorable(items, tmpl, buffer, o);
    OneStorable(TreeOf(items, tmpl, buffer), map[buffer := tmpl]);
  }

  // ---- Partials -----------------------------------------------------------------------------------------

  /** A standalone tag renders the partial of an accepted template with the indentation before every line of its source:
      with the same meaning, and so with the same output wherever both renders have enough room. */
  lemma {:induction false} TemplateIndents(tmpl: Bytes, delims: Delims, buffer: nat, o: Options, marker: Node, tag: Node,
                                           c: Context, stack: seq<Data>, depth: nat)
    requires Usable(delims) && Pieces(tmpl, delims, o).Ok? && AllPlaced(Pieces(tmpl, delims, o).value, tmpl)
    requires IsMarker(marker) && tag.Node? && tag.kind.TypePartial? && Sound(tag, false) && tag.data.Some?
    requires stack != [] && depth < NESTING_CEILING
    requires c.env(tag.data.value) == TreeOf(Pieces(tmpl, delims, o).value, tmpl, buffer)
    ensures var t := c.env(tag.data.value);
            var standalone := TraceChildren([marker, tag], c, stack, None, depth).events;
            var indented := TraceNode(Indent(t, marker.data.value, true), c, stack, None, depth + 1, None, false).events;
            && Meant(standalone) == Meant(indented)
            && forall limits: RenderLimits.Limits, other: RenderLimits.Limits, at: RenderLimits.Progress ::
                 RenderLimits.Within(limits, at) && RenderLimits.Within(other, at)
                 && RenderLimits.Run(standalone, limits, at).outcome.Pass? && RenderLimits.Run(indented, other, at).outcome.Pass? ==>
                   RenderLimits.Run(standalone, limits, at).progress.output == RenderLimits.Run(indented, other, at).progress.output
  {
    hide Pieces, WellShaped, Closed, Height, NodeCount, PartsWithin, PartCount, TraceChildren, TraceNode, Meant, Indent;
    hide Objection;
    hide RenderLimits.Run, RenderLimits.Within;
    TokenizedTreeIsFit(tmpl, delims, buffer, o);
    StandalonePartial(marker, tag, c, stack, depth);
    var standalone := TraceChildren([marker, tag], c, stack, None, depth).events;
    var indented := TraceNode(Indent(c.env(tag.data.value), marker.data.value, true), c, stack, None, depth + 1, None, false).events;
    forall limits: RenderLimits.Limits, other: RenderLimits.Limits, at: RenderLimits.Progress
      | RenderLimits.Within(limits, at) && RenderLimits.Within(other, at)
        && RenderLimits.Run(standalone, limits, at).outcome.Pass? && RenderLimits.Run(indented, other, at).outcome.Pass?
      ensures RenderLimits.Run(standalone, limits, at).progress.output == RenderLimits.Run(indented, other, at).progress.output
    {
      SameMeaningSameOutput(standalone, indented, limits, other, at);
    }
  }
}
