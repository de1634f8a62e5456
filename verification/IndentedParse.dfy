/** Tokenizing the indented text runs along with tokenizing the text, tag by tag. */
module IndentedParse {
  import opened Base
  import opened Template
  import opened RenderTrace
  import RenderLimits
  import opened Strings
  import opened SourceTree
  import opened TokenizerSpec
  import opened TokenizerRoom
  import opened Tiling
  import opened TokenizerTheorems
  import opened Indentation
  import opened IndentedText
  import opened IndentedSource
  import opened SameMeaning

  /** A text, its indentation, and the buffers in which the text and the indented text are kept. */
  datatype Texts = Texts(t: Bytes, indentation: Bytes, a: nat, b: nat) {
    function U(): Bytes {
      Indented(t, indentation)
    }

    /** The nodes of pieces of the text, with their names as the indented text spells them. */
    function Old(items: seq<Item>): seq<Node>
      requires AllPlaced(items, t)
    {
      RespellAll(EraseAll(items, t, a), indentation)
    }

    /** The nodes of pieces of the indented text. */
    function New(items: seq<Item>): seq<Node>
      requires AllPlaced(items, U())
    {
      EraseAll(items, U(), b)
    }
  }

  // ---- Corresponding states ------------------------------------------------------------------------------

  /** The levels of two parses: what the pieces of the second become renders like the indented nodes of the first, on every
      level. `due` says whether the indentation is due before the next piece; with `paid`, the second parse has it already.
      Below the innermost level it has, before the tag that opens the section. */
  ghost predicate Mirrored(lv: seq<Level>, lw: seq<Level>, w: Texts, due: bool, paid: bool)
    decreases |lv|
  {
    && |lv| == |lw| > 0
    && var n := |lv| - 1;
       && MirroredTop(lv[n], lw[n], n == 0, w, due, paid)
       && (n > 0 ==>
             lw[n].head == SpreadHead(lv[n].head, w.indentation) && Opens(lv[n].head.kind) && lv[n].head.flags == FLAG_NONE
             && exists d :: Mirrored(lv[..n], lw[..n], w, d, true))
  }

  ghost predicate MirroredTop(a: Level, b: Level, root: bool, w: Texts, due: bool, paid: bool) {
    && AllPlaced(a.items, w.t) && AllPlaced(b.items, w.U())
    && var ns, ms := w.Old(a.items), w.New(b.items);
       && MarkersPlaced(ns) && MarkersPlaced(ms) && AfterAll(ns, root) == due
       && Equivalent(ms, IndentAll(ns, w.indentation, root) + Owed(w.indentation, paid && due))
  }

  /** More pieces on both sides keep the correspondence if they correspond themselves. */
  ghost predicate Corresponds(items: seq<Item>, items': seq<Item>, w: Texts, due: bool, paid: bool, due': bool, paid': bool) {
    && AllPlaced(items, w.t) && AllPlaced(items', w.U())
    && NodesCorrespond(w.Old(items), w.New(items'), w.indentation, due, paid, due', paid')
  }

  ghost predicate NodesCorrespond(ns: seq<Node>, ms: seq<Node>, indentation: Bytes, due: bool, paid: bool, due': bool, paid': bool)
  {
    && MarkersPlaced(ns) && MarkersPlaced(ms) && AfterAll(ns, due) == due'
    && Equivalent(Owed(indentation, paid && due) + ms, IndentAll(ns, indentation, due) + Owed(indentation, paid' && due'))
  }

  lemma {:induction false} MirrorAdd(st: Parse, st': Parse, items: seq<Item>, items': seq<Item>, w: Texts,
                                     due: bool, paid: bool, due': bool, paid': bool)
    requires Mirrored(st.levels, st'.levels, w, due, paid) && IsIndentation(w.indentation)
    requires Corresponds(items, items', w, due, paid, due', paid')
    ensures Mirrored(AddAll(st, items).levels, AddAll(st', items').levels, w, due', paid')
  {
    hide Equivalent, MirroredTop, Corresponds;
    var n := |st.levels| - 1;
    var lv, lw := AddAll(st, items).levels, AddAll(st', items').levels;
    assert lv[..n] == st.levels[..n] && lw[..n] == st'.levels[..n];
    TopAdd(st.levels[n], st'.levels[n], n == 0, items, items', w, due, paid, due', paid');
  }

  lemma {:induction false} TopAdd(a: Level, b: Level, root: bool, items: seq<Item>, items': seq<Item>, w: Texts,
                                  due: bool, paid: bool, due': bool, paid': bool)
    requires MirroredTop(a, b, root, w, due, paid) && IsIndentation(w.indentation)
    requires Corresponds(items, items', w, due, paid, due', paid')
    ensures MirroredTop(a.(items := a.items + items), b.(items := b.items + items'), root, w, due', paid')
  {
    hide Equivalent, MarkersPlaced, IndentAll, AfterAll, EraseAll, AllPlaced, RespellAll;
    EraseConcat(a.items, items, w.t, w.a);
    EraseConcat(b.items, items', w.U(), w.b);
    RespellConcat(EraseAll(a.items, w.t, w.a), EraseAll(items, w.t, w.a), w.indentation);
    var indentation, ns, ms, xs, ys := w.indentation, w.Old(a.items), w.New(b.items), w.Old(items), w.New(items');
    PlacedConcat(ns, xs);
    PlacedConcat(ms, ys);
    IndentAllConcat(ns, xs, indentation, root);
    var front, back := IndentAll(ns, indentation, root), IndentAll(xs, indentation, due);
    var owed, owed' := Owed(indentation, paid && due), Owed(indentation, paid' && due');
    IndentAllPlaced(ns, indentation, root);
    OwedPlaced(indentation, paid && due);
    PlacedConcat(front, owed);
    EquivalentSelf(ys);
    EquivalentConcat(ms, ys, front + owed, ys);
    EquivalentSelf(front);
    EquivalentConcat(front, owed + ys, front, back + owed');
    assert (front + owed) + ys == front + (owed + ys);
    EquivalentThrough(ms + ys, (front + owed) + ys, front + (back + owed'));
    assert front + (back + owed') == (front + back) + owed';
  }

  lemma {:induction false} MirrorOpen(lv: seq<Level>, lw: seq<Level>, a: Level, b: Level, w: Texts, due: bool)
    requires Mirrored(lv, lw, w, due, true) && a.items == [] && b.items == []
    requires b.head == SpreadHead(a.head, w.indentation) && Opens(a.head.kind) && a.head.flags == FLAG_NONE
    ensures Mirrored(lv + [a], lw + [b], w, false, false)
  {
    hide Equivalent, MirroredTop;
    assert (lv + [a])[..|lv|] == lv && (lw + [b])[..|lw|] == lw;
    EmptyTop(a, b, false, w);
  }

  lemma {:induction false} EmptyTop(a: Level, b: Level, root: bool, w: Texts)
    requires a.items == [] && b.items == []
    ensures MirroredTop(a, b, root, w, root, false)
  {
    hide Equivalent, IndentAll, AfterAll;
    NothingIndented(w.indentation, root);
    assert IndentAll([], w.indentation, root) + Owed(w.indentation, false) == [];
    EquivalentSelf([]);
  }

  /** A section that closes becomes a node on the level below. */
  lemma {:induction false} MirrorClose(st: Parse, st': Parse, f: Found, f': Found, w: Texts)
    requires |st.levels| > 1 && Mirrored(st.levels, st'.levels, w, false, false) && IsIndentation(w.indentation)
    requires TopLevel(st).body <= f.open <= |w.t| && TopLevel(st').body <= f'.open <= |w.U()|
    ensures Mirrored(CloseBlock(st, f).levels, CloseBlock(st', f').levels, w, false, false)
  {
    hide Equivalent, MirroredTop;
    var n := |st.levels| - 1;
    var d :| Mirrored(st.levels[..n], st'.levels[..n], w, d, true);
    var below, below' := st.(levels := st.levels[..n]), st'.(levels := st'.levels[..n]);
    var a, b := st.levels[n], st'.levels[n];
    var block := Block(a.head, a.spelling, a.from, a.body, f.open, f.End(), a.items);
    var block' := Block(b.head, b.spelling, b.from, b.body, f'.open, f'.End(), b.items);
    BlockCorresponds(a, b, block, block', w, d);
    MirrorAdd(below, below', [block], [block'], w, d, true, false, false);
  }

  lemma {:induction false} BlockCorresponds(a: Level, b: Level, block: Item, block': Item, w: Texts, d: bool)
    requires MirroredTop(a, b, false, w, false, false) && b.head == SpreadHead(a.head, w.indentation)
    requires Opens(a.head.kind) && a.head.flags == FLAG_NONE && IsIndentation(w.indentation)
    requires block.Block? && block.head == a.head && block.items == a.items && block.body <= block.close <= |w.t|
    requires block'.Block? && block'.head == b.head && block'.items == b.items && block'.body <= block'.close <= |w.U()|
    ensures Corresponds([block], [block'], w, d, true, false, false)
  {
    hide Equivalent, IndentAll;
    OneOld(block, w);
    OneNew(block', w);
    var n, m := Respell(Erase(block, w.t, w.a)[0], w.indentation), Erase(block', w.U(), w.b)[0];
    PlacedOne(n);
    PlacedOne(m);
    var k := Indent(n, w.indentation, d);
    SectionIndents(n, w.indentation, d);
    assert IndentAll(n.children, w.indentation, false) + [] == IndentAll(n.children, w.indentation, false);
    SectionsEquivalent(m, k);
    SingleCorresponds(n, m, k, w.indentation, d);
  }

  /** A piece in the middle of a line, with the indentation that is due before it. */
  lemma {:induction false} SingleCorresponds(n: Node, m: Node, k: Node, indentation: Bytes, d: bool)
    requires MarkersPlaced([n]) && MarkersPlaced([m]) && Equivalent([m], [k]) && AfterAll([n], d) == false
    requires IndentAll([n], indentation, d) == Owed(indentation, d) + [k]
    ensures NodesCorrespond([n], [m], indentation, d, true, false, false)
  {
    hide Equivalent, IndentAll, MarkersPlaced, AfterAll;
    var owed := Owed(indentation, d);
    EquivalentSelf(owed);
    OwedPlaced(indentation, d);
    EquivalentConcat(owed, [m], owed, [k]);
    assert owed + [k] + [] == owed + [k];
  }

  lemma {:induction false} OneErased(item: Item, t: Bytes, buffer: nat)
    requires Placed(item, t)
    ensures AllPlaced([item], t) && EraseAll([item], t, buffer) == Erase(item, t, buffer)
  {
    hide Placed, Erase;
    assert [item][1..] == [];
    assert Erase(item, t, buffer) + [] == Erase(item, t, buffer);
  }

  lemma {:induction false} OneOld(item: Item, w: Texts)
    requires Placed(item, w.t)
    ensures AllPlaced([item], w.t)
    ensures |Erase(item, w.t, w.a)| == 1 ==> w.Old([item]) == [Respell(Erase(item, w.t, w.a)[0], w.indentation)]
    ensures Erase(item, w.t, w.a) == [] ==> w.Old([item]) == []
  {
    hide Placed, Erase, Respell;
    OneErased(item, w.t, w.a);
    var nodes := Erase(item, w.t, w.a);
    if |nodes| == 1 {
      assert nodes == [nodes[0]];
      RespellOne(nodes[0], w.indentation);
    }
  }

  lemma {:induction false} OneNew(item: Item, w: Texts)
    requires Placed(item, w.U())
    ensures AllPlaced([item], w.U()) && w.New([item]) == Erase(item, w.U(), w.b)
  {
    hide Placed, Erase;
    OneErased(item, w.U(), w.b);
  }

  /** A section among the nodes: the indentation that is due, and the section with its children indented. */
  lemma {:induction false} SectionIndents(n: Node, indentation: Bytes, due: bool)
    requires n.Node? && Opens(n.kind) && n.flags == FLAG_NONE && n.data.Some?
    ensures IndentAll([n], indentation, due) == Owed(indentation, due) + [Indent(n, indentation, due)]
    ensures AfterAll([n], due) == false
    ensures var k := Indent(n, indentation, due);
            k == n.(children := IndentAll(n.children, indentation, false))
  {
    hide IndentAll, AfterAll;
    RenderLimits.NoMarkerPair(n, Null);
    assert [n][1..] == [];
    IndentAllStep([n], indentation, due);
    NothingIndented(indentation, After(n, false, due));
    assert Indentation.Before(n, indentation, due) == Owed(indentation, due);
    assert Owed(indentation, due) + [Indent(n, indentation, due)] + [] == Owed(indentation, due) + [Indent(n, indentation, due)];
  }

  /** A tag without children among the nodes. */
  lemma {:induction false} LeafIndents(n: Node, indentation: Bytes, due: bool)
    requires n.Node? && n.data.Some? && !Bit(n.flags, FLAG_PARTIAL_INDENT)
    requires n.kind.TypeVariable? || n.kind.TypeStop? || n.kind.TypeComment? || n.kind.TypePartial?
    ensures IndentAll([n], indentation, due) == Owed(indentation, due) + [n]
    ensures AfterAll([n], due) == false && MarkersPlaced([n])
  {
    hide IndentAll, AfterAll;
    RenderLimits.NoMarkerPair(n, Null);
    assert [n][1..] == [];
    IndentAllStep([n], indentation, due);
    NothingIndented(indentation, After(n, false, due));
    assert Indentation.Before(n, indentation, due) == Owed(indentation, due);
    assert Owed(indentation, due) + [n] + [] == Owed(indentation, due) + [n];
    PlacedOne(n);
  }

  /** Literal text among the nodes, and text that is not rendered. */
  lemma {:induction false} TextIndents(x: Bytes, indentation: Bytes, due: bool)
    ensures IndentAll([Leaf(TypeOutput, FLAG_NONE, x)], indentation, due)
         == [Indentation.Literal(IndentText(x, indentation, due))]
    ensures AfterAll([Leaf(TypeOutput, FLAG_NONE, x)], due) == TextEnd(x, due)
    ensures MarkersPlaced([Leaf(TypeOutput, FLAG_NONE, x)])
  {
    hide IndentAll, AfterAll, IndentText;
    var n := Leaf(TypeOutput, FLAG_NONE, x);
    RenderLimits.NoMarkerPair(n, Null);
    assert [n][1..] == [];
    IndentAllStep([n], indentation, due);
    NothingIndented(indentation, After(n, false, due));
    PlacedOne(n);
  }

  lemma {:induction false} ConsumedIndents(x: Bytes, indentation: Bytes, due: bool)
    ensures IndentAll([Leaf(TypeOutput, FLAG_LAMBDA_ONLY, x)], indentation, due) == [Leaf(TypeOutput, FLAG_LAMBDA_ONLY, x)]
    ensures AfterAll([Leaf(TypeOutput, FLAG_LAMBDA_ONLY, x)], due) == TextEnd(x, false)
    ensures MarkersPlaced([Leaf(TypeOutput, FLAG_LAMBDA_ONLY, x)])
  {
    hide IndentAll, AfterAll, Indent, After, Indentation.Before, MarkersPlaced, PartialIndentation, TextEnd;
    var n := Leaf(TypeOutput, FLAG_LAMBDA_ONLY, x);
    RenderLimits.NoMarkerPair(n, Null);
    ConsumedNode(x, indentation, due);
    assert [n][1..] == [];
    IndentAllStep([n], indentation, due);
    NothingIndented(indentation, After(n, false, due));
    PlacedOne(n);
  }

  lemma {:induction false} ConsumedNode(x: Bytes, indentation: Bytes, due: bool)
    ensures var n := Leaf(TypeOutput, FLAG_LAMBDA_ONLY, x);
            Indentation.Before(n, indentation, due) == [] && Indent(n, indentation, due) == n
            && After(n, false, due) == TextEnd(x, false)
  {
  }

  /** A standalone partial with its marker. */
  lemma {:induction false} PairIndents(x: Bytes, name: Bytes, indentation: Bytes, due: bool)
    requires IsIndentation(x) && IsIndentation(indentation)
    ensures var marker, tag := Leaf(TypeOutput, FLAGS_MARKER, x), Leaf(TypePartial, FLAG_NONE, name);
            && IndentAll([marker, tag], indentation, due) == [Leaf(TypeOutput, FLAGS_MARKER, indentation + x), tag]
            && AfterAll([marker, tag], due) == false && MarkersPlaced([marker, tag])
  {
    hide IndentAll, AfterAll, Indent, After, Indentation.Before, MarkersPlaced, PartialIndentation;
    var marker, tag := Leaf(TypeOutput, FLAGS_MARKER, x), Leaf(TypePartial, FLAG_NONE, name);
    MarkerOfPair(x, name);
    assert [marker, tag][2..] == [];
    IndentAllStep([marker, tag], indentation, due);
    NothingIndented(indentation, false);
  }

  lemma {:induction false} MarkerOfPair(x: Bytes, name: Bytes)
    requires IsIndentation(x)
    ensures var marker, tag := Leaf(TypeOutput, FLAGS_MARKER, x), Leaf(TypePartial, FLAG_NONE, name);
            PartialIndentation(marker, tag) == Ok(Some(x)) && MarkersPlaced([marker, tag])
  {
  }

  // ---- The tag that is found -----------------------------------------------------------------------------

  predicate SteadyDelims(d: Delims) {
    Steady(d.start) && Steady(d.stop)
  }

  lemma {:induction false} SteadyEnds(t: Bytes, k: nat, s: Bytes)
    requires MatchesAt(t, k, s) && Steady(s)
    ensures k < k + |s| <= |t| && !AtStart(t, k + |s|)
  {
    assert t[k..k + |s|][|s| - 1] == t[k + |s| - 1];
    assert s[|s| - 1] in s;
  }

  lemma {:induction false} OpeningMoves(t: Bytes, indentation: Bytes, open: nat, start: Bytes)
    requires MatchesAt(t, open, start) && Steady(start)
    ensures open < |t| && Inside(t, open, start) > 0 && !AtStart(t, Inside(t, open, start))
    ensures var u, q := Indented(t, indentation), Place(t, indentation, open);
            MatchesAt(u, q, start) && IsTriple(u, q, start) == IsTriple(t, open, start)
            && Inside(u, q, start) == Pos(t, indentation, Inside(t, open, start))
  {
    hide Pos;
    SteadyEnds(t, open, start);
    WordMoves(t, indentation, open, start);
    var e := open + |start|;
    ByteMoves(t, indentation, e);
    if IsTriple(t, open, start) {
      assert t[e] == t[e..e + 1][0];
    }
  }

  /** A byte in the middle of a line. */
  lemma {:induction false} ByteMoves(t: Bytes, indentation: Bytes, e: nat)
    requires e <= |t| && !AtStart(t, e)
    ensures var u, p := Indented(t, indentation), Pos(t, indentation, e);
            && p <= |u| && (e == |t| <==> p == |u|)
            && (e < |t| ==> p + 1 == Pos(t, indentation, e + 1))
            && forall b: byte :: MatchesAt(u, p, [b]) <==> MatchesAt(t, e, [b])
  {
    hide Pos;
    Ends(t, indentation);
    Stretch(t, indentation, e, |t|);
    var u, p := Indented(t, indentation), Pos(t, indentation, e);
    if e < |t| {
      OneByte(t, indentation, e);
      assert u[p..p + 1] == [t[e]] == t[e..e + 1];
    }
  }

  /** The content of a tag, and its closing delimiter. */
  lemma {:induction false} ContentMoves(t: Bytes, indentation: Bytes, inside: nat, close: nat, stop: Bytes)
    requires inside <= close <= |t| && !AtStart(t, inside) && Steady(stop) && IsIndentation(indentation)
    requires FindAt(t, inside, stop) == Some(close)
    ensures close + |stop| <= |t| && !AtStart(t, close + |stop|)
    ensures var u, p, q := Indented(t, indentation), Pos(t, indentation, inside), Place(t, indentation, close);
            p <= q <= |u| && FindAt(u, p, stop) == Some(q) && u[p..q] == Spread(t[inside..close], indentation)
            && q + |stop| == Pos(t, indentation, close + |stop|) <= |u|
  {
    hide Pos, FindAt, IndentText, Spread;
    FindMoves(t, indentation, inside, stop);
    SteadyEnds(t, close, stop);
    WordMoves(t, indentation, close, stop);
    RawMoves(t, indentation, inside, close);
  }

  lemma {:induction false} RawMoves(t: Bytes, indentation: Bytes, inside: nat, close: nat)
    requires inside <= close < |t| && !AtStart(t, inside)
    ensures var u, p, q := Indented(t, indentation), Pos(t, indentation, inside), Place(t, indentation, close);
            p <= q <= |u| && u[p..q] == Spread(t[inside..close], indentation)
  {
    hide Pos, IndentText, Spread, DueText, TextEnd;
    var u, p, m := Indented(t, indentation), Pos(t, indentation, inside), Pos(t, indentation, close);
    var raw, q := t[inside..close], Place(t, indentation, close);
    Stretch(t, indentation, inside, close);
    OneByte(t, indentation, close);
    SpreadIs(raw, indentation, false);
    StretchEnd(t, inside, close);
    assert u[p..q] == u[p..m] + u[m..q];
    NotDue(indentation, Spread(raw, indentation));
  }

  lemma {:induction false} StretchEnd(t: Bytes, a: nat, b: nat)
    requires a <= b <= |t|
    ensures TextEnd(t[a..b], AtStart(t, a)) == AtStart(t, b)
  {
    if a < b {
      assert t[a..b][b - a - 1] == t[b - 1];
    }
  }

  lemma {:induction false} NotDue(indentation: Bytes, text: Bytes)
    ensures DueText(indentation, false) + text == text
  {
  }

  /** A tag and its counterpart. */
  ghost predicate Moved(t: Bytes, indentation: Bytes, f: Found, f': Found) {
    var u := Indented(t, indentation);
    && f.Within(t) && f'.Within(u) && f.open < |t| && f.End() <= |t| && f'.End() <= |u|
    && f.text <= |t| && f'.text == Pos(t, indentation, f.text) && f'.open == Place(t, indentation, f.open)
    && f'.spelling.triple == f.spelling.triple && f'.head == SpreadHead(f.head, indentation)
    && f'.Closed() == Pos(t, indentation, f.Closed()) && f'.End() == Pos(t, indentation, f.End())
    && !AtStart(t, f.Closed()) && !AtStart(t, f.End())
    && (ExtraBrace(f'.spelling, f'.head.change.Some?) ==> MatchesAt(u, f'.Closed(), CLOSING_BRACE))
  }

  /** The tag at the corresponding place says the same, unless its delimiters are too long for the limits. */
  lemma {:induction false} FoundMoves(t: Bytes, indentation: Bytes, f: Found, d: Delims, o: Options, o': Options)
    requires SteadyDelims(d) && f.text <= f.open && MatchesAt(t, f.open, d.start)
    requires FindAt(t, Inside(t, f.open, d.start), d.stop) == Some(f.close) && FindTag(t, f.text, f.open, f.close, d, o) == Ok(f)
    requires ExtraBrace(f.spelling, f.head.change.Some?) ==> MatchesAt(t, f.Closed(), CLOSING_BRACE)
    requires IsIndentation(indentation) && o'.escapeByDefault == o.escapeByDefault
    ensures var u, open, close := Indented(t, indentation), Place(t, indentation, f.open), Place(t, indentation, f.close);
            && f.open < |t| && f.close < |t| && Pos(t, indentation, f.text) <= open && MatchesAt(u, open, d.start)
            && FindAt(u, Inside(u, open, d.start), d.stop) == Some(close)
            && var found := FindTag(u, Pos(t, indentation, f.text), open, close, d, o');
               if found.Err? then Limit(found.error)
               else found.value.open == open && found.value.close == close && Moved(t, indentation, f, found.value)
  {
    hide Pos, Place, FindAt, IndentText, Spread, Classify, AtStart, MatchesAt, IsTriple, Inside, Limit;
    var u, open, close := Indented(t, indentation), Place(t, indentation, f.open), Place(t, indentation, f.close);
    var inside, raw := Inside(t, f.open, d.start), f.spelling.raw;
    OpeningMoves(t, indentation, f.open, d.start);
    ContentMoves(t, indentation, inside, f.close, d.stop);
    PosBefore(t, indentation, f.text, f.open);
    ClassifySpread(raw, f.spelling.triple, indentation, o.escapeByDefault, o.limits.maxDelimiterBytes, o'.limits.maxDelimiterBytes);
    var found := FindTag(u, Pos(t, indentation, f.text), open, close, d, o');
    if found.Ok? {
      SameEnd(t, indentation, f, found.value);
    }
  }

  lemma {:induction false} SameEnd(t: Bytes, indentation: Bytes, f: Found, f': Found)
    requires f.Closed() <= |t| && !AtStart(t, f.Closed()) && f'.Closed() == Pos(t, indentation, f.Closed())
    requires f.spelling.delims == f'.spelling.delims && f.spelling.triple == f'.spelling.triple
    requires f.head.change == f'.head.change
    requires ExtraBrace(f.spelling, f.head.change.Some?) ==> MatchesAt(t, f.Closed(), CLOSING_BRACE)
    ensures f.End() <= |t| && !AtStart(t, f.End()) && f'.End() == Pos(t, indentation, f.End()) <= |Indented(t, indentation)|
    ensures ExtraBrace(f'.spelling, f'.head.change.Some?) ==> MatchesAt(Indented(t, indentation), f'.Closed(), CLOSING_BRACE)
  {
    hide Pos, AtStart;
    ByteMoves(t, indentation, f.Closed());
    if ExtraBrace(f.spelling, f.head.change.Some?) {
      BraceEnds(t, f.Closed());
    }
  }

  lemma {:induction false} BraceEnds(t: Bytes, e: nat)
    requires MatchesAt(t, e, CLOSING_BRACE)
    ensures e < |t| && !AtStart(t, e + 1)
  {
    assert t[e] == t[e..e + 1][0];
  }

  // ---- Standalone lines -------------------------------------------------------------------------------------

  /** Both tags are alone on their lines, or neither is. */
  lemma {:induction false} StandaloneMoves(t: Bytes, indentation: Bytes, f: Found, f': Found)
    requires Moved(t, indentation, f, f') && IsIndentation(indentation)
    ensures var u, r, l := Indented(t, indentation), Standalone(t, f), LineStart(t, f.open);
            && Standalone(u, f') == (if r.Some? then Some(Pos(t, indentation, r.value)) else None)
            && LineStart(u, f'.open) == Pos(t, indentation, l) <= f'.open && AtStart(t, l)
            && u[Pos(t, indentation, l)..f'.open] == indentation + t[l..f.open]
            && (r.Some? ==> IsIndentation(t[l..f.open]))
  {
    hide Pos, IndentText, LineStart, LineEnd, AtStart, TextEnd;
    LineMoves(t, indentation, f.open);
    LineEndMoves(t, indentation, f.Closed());
  }

  // ---- Before the tag ------------------------------------------------------------------------------------------

  function TextItems(a: nat, b: nat, escaped: bool): seq<Item> {
    if b > a then [Literal(FLAG_NONE, escaped, a, b)] else []
  }

  function Shown(x: Bytes, escaped: bool): Bytes {
    if escaped then RenderTrace.Escaped(x) else x
  }

  lemma {:induction false} TextErased(a: nat, b: nat, escaped: bool, t: Bytes, buffer: nat)
    requires a <= b <= |t|
    ensures AllPlaced(TextItems(a, b, escaped), t)
    ensures EraseAll(TextItems(a, b, escaped), t, buffer)
         == if a < b then [Indentation.Literal(Shown(t[a..b], escaped))] else []
  {
    if a < b {
      OneErased(Literal(FLAG_NONE, escaped, a, b), t, buffer);
    }
  }

  lemma {:induction false} TextOld(a: nat, b: nat, escaped: bool, w: Texts)
    requires a <= b <= |w.t|
    ensures AllPlaced(TextItems(a, b, escaped), w.t)
    ensures w.Old(TextItems(a, b, escaped)) == if a < b then [Indentation.Literal(Shown(w.t[a..b], escaped))] else []
  {
    TextErased(a, b, escaped, w.t, w.a);
    RespellOne(Indentation.Literal(Shown(w.t[a..b], escaped)), w.indentation);
  }

  lemma {:induction false} EscapedConcat(a: Bytes, b: Bytes)
    ensures RenderTrace.Escaped(a + b) == RenderTrace.Escaped(a) + RenderTrace.Escaped(b)
  {
    hide EscapedByte;
    if a == [] {
      assert a + b == b;
    } else {
      assert (a + b)[0] == a[0] && (a + b)[1..] == a[1..] + b;
      EscapedConcat(a[1..], b);
      var x, y, z := EscapedByte(a[0]), RenderTrace.Escaped(a[1..]), RenderTrace.Escaped(b);
      assert x + (y + z) == (x + y) + z;
    }
  }

  lemma {:induction false} EscapedIndentation(s: Bytes)
    requires IsIndentation(s)
    ensures RenderTrace.Escaped(s) == s
  {
    if s != [] {
      assert IsIndentByte(s[0]);
      EscapedIndentation(s[1..]);
      assert [s[0]] + s[1..] == s;
    }
  }

  lemma {:induction false} EscapedOne(b: byte)
    ensures RenderTrace.Escaped([b]) == EscapedByte(b)
    ensures EscapedByte(b) == [NEWLINE] || (NEWLINE !in EscapedByte(b) && b != NEWLINE)
  {
    assert [b][1..] == [] && RenderTrace.Escaped([]) == [];
    assert EscapedByte(b) + [] == EscapedByte(b);
  }

  lemma {:induction false} ByteIndented(b: byte, indentation: Bytes, start: bool)
    ensures var e := EscapedByte(b);
            IndentText(e, indentation, start) == DueText(indentation, start) + e && TextEnd(e, start) == (b == NEWLINE)
  {
    hide IndentText, Spread, DueText, EscapedByte;
    var e := EscapedByte(b);
    EscapedOne(b);
    SpreadSteps(e, indentation, start);
    if e == [NEWLINE] {
      SpreadSteps(e[1..], indentation, true);
      assert DueText(indentation, start) + [NEWLINE] + [] == DueText(indentation, start) + [NEWLINE];
      OnlyLine(b);
    } else {
      SpreadOneLine(e, indentation);
      SpreadIs(e, indentation, start);
      assert e[|e| - 1] in e;
      NotDue(indentation, []);
      assert IndentText(e, indentation, start) + [] == IndentText(e, indentation, start);
    }
  }

  lemma {:induction false} OnlyLine(b: byte)
    requires EscapedByte(b) == [NEWLINE]
    ensures b == NEWLINE
  {
  }

  /** Indentation needs no escaping, and escaping leaves line breaks alone. */
  lemma {:induction false} EscapedIndented(x: Bytes, indentation: Bytes, start: bool)
    requires IsIndentation(indentation)
    ensures RenderTrace.Escaped(IndentText(x, indentation, start)) == IndentText(RenderTrace.Escaped(x), indentation, start)
    ensures TextEnd(RenderTrace.Escaped(x), start) == TextEnd(x, start) && (RenderTrace.Escaped(x) == [] <==> x == [])
  {
    hide EscapedByte, TextEnd, DueText, Spread;
    SpreadSteps(x, indentation, start);
    if x != [] {
      var due, e, more, rest := DueText(indentation, start), EscapedByte(x[0]), RenderTrace.Escaped(x[1..]),
                                IndentText(x[1..], indentation, x[0] == NEWLINE);
      EscapedIndented(x[1..], indentation, x[0] == NEWLINE);
      EscapedConcat(due + [x[0]], rest);
      EscapedConcat(due, [x[0]]);
      DueIndentation(indentation, start);
      EscapedIndentation(due);
      EscapedOne(x[0]);
      IndentConcat(e, more, indentation, start);
      ByteIndented(x[0], indentation, start);
      EndConcat(e, more, start);
    }
  }

  lemma {:induction false} DueIndentation(indentation: Bytes, start: bool)
    requires IsIndentation(indentation)
    ensures IsIndentation(DueText(indentation, start))
  {
  }

  lemma {:induction false} EndConcat(a: Bytes, b: Bytes, start: bool)
    ensures TextEnd(a + b, start) == TextEnd(b, TextEnd(a, start))
  {
    if b == [] {
      assert a + b == a;
    }
  }

  /** Literal text from a place where the indentation is due in both texts, or is there already in the second. */
  lemma {:induction false} TextMoves(w: Texts, a: nat, b: nat, escaped: bool, owing: bool)
    requires a <= b <= |w.t| && IsIndentation(w.indentation) && w.indentation != [] && (owing ==> !AtStart(w.t, a))
    ensures var p, q := Pos(w.t, w.indentation, a), Pos(w.t, w.indentation, b);
            p <= q <= |w.U()| && (a < b <==> p < q)
            && Corresponds(TextItems(a, b, escaped), TextItems(p, q, escaped), w, owing || AtStart(w.t, a), owing,
                           (owing && a == b) || AtStart(w.t, b), owing && a == b)
  {
    hide Pos, IndentText, IndentAll, AfterAll, Equivalent, MarkersPlaced, TextItems, NodesCorrespond, EraseAll, AllPlaced;
    hide RespellAll;
    hide TextEnd, RenderTrace.Escaped;
    var p, q, x := Pos(w.t, w.indentation, a), Pos(w.t, w.indentation, b), w.t[a..b];
    Stretch(w.t, w.indentation, a, b);
    TextOld(a, b, escaped, w);
    TextErased(p, q, escaped, w.U(), w.b);
    if a < b {
      PosMonotone(w.t, w.indentation, a, b);
      StretchEnd(w.t, a, b);
      EscapedIndented(x, w.indentation, AtStart(w.t, a));
      TextNodes(Shown(x, escaped), w.indentation, AtStart(w.t, a), owing);
    } else {
      NoNodes(w.indentation, owing || AtStart(w.t, a), owing);
    }
  }

  lemma {:induction false} NoNodes(indentation: Bytes, due: bool, paid: bool)
    ensures NodesCorrespond([], [], indentation, due, paid, due, paid)
  {
    hide Equivalent, IndentAll, AfterAll;
    NothingIndented(indentation, due);
    var owed := Owed(indentation, paid && due);
    EquivalentSelf(owed);
    assert owed + [] == owed && [] + owed == owed;
  }

  lemma {:induction false} TextNodes(x: Bytes, indentation: Bytes, start: bool, owing: bool)
    requires x != [] && (owing ==> !start)
    ensures NodesCorrespond([Indentation.Literal(x)], [Indentation.Literal(IndentText(x, indentation, start))], indentation,
                            owing || start, owing, TextEnd(x, start), false)
  {
    hide Equivalent, IndentAll, AfterAll, IndentText;
    var due, y := owing || start, IndentText(x, indentation, start);
    TextIndents(x, indentation, due);
    PlacedOne(Indentation.Literal(y));
    var k := [Indentation.Literal(IndentText(x, indentation, due))];
    assert k + [] == k;
    if owing {
      DueFirst(x, indentation);
      TextsEquivalent(indentation, y);
      EquivalentTurned(k, [Indentation.Literal(indentation), Indentation.Literal(y)]);
      assert [Indentation.Literal(indentation)] + [Indentation.Literal(y)] == [Indentation.Literal(indentation), Indentation.Literal(y)];
    } else {
      EquivalentSelf(k);
      assert [] + k == k;
    }
  }

  lemma {:induction false} DueFirst(x: Bytes, indentation: Bytes)
    requires x != []
    ensures IndentText(x, indentation, true) == indentation + IndentText(x, indentation, false)
    ensures TextEnd(x, true) == TextEnd(x, false)
  {
    var rest := IndentText(x[1..], indentation, x[0] == NEWLINE);
    assert indentation + [x[0]] + rest == indentation + ([] + [x[0]] + rest);
  }

  /** Literal text up to a tag: in the second text the indentation of the tag's line is part of it. */
  lemma {:induction false} TextBeforeTag(w: Texts, a: nat, b: nat, owing: bool)
    requires a <= b < |w.t| && IsIndentation(w.indentation) && w.indentation != [] && (owing ==> !AtStart(w.t, a))
    ensures var p, q := Pos(w.t, w.indentation, a), Place(w.t, w.indentation, b);
            Corresponds(TextItems(a, b, false), TextItems(p, q, false), w, owing || AtStart(w.t, a), owing,
                        (owing && a == b) || AtStart(w.t, b), true)
  {
    hide Pos, IndentText, IndentAll, AfterAll, Equivalent, EraseAll, AllPlaced, MarkersPlaced, TextItems, RespellAll;
    TextMoves(w, a, b, false, owing);
    if AtStart(w.t, b) {
      var p, m, due := Pos(w.t, w.indentation, a), Pos(w.t, w.indentation, b), owing || AtStart(w.t, a);
      var ns := w.Old(TextItems(a, b, false));
      TextWithDue(w, a, b);
      IndentAllPlaced(ns, w.indentation, due);
      OwedPlaced(w.indentation, owing && due);
      JoinOwed(Owed(w.indentation, owing && due), w.New(TextItems(p, m, false)), IndentAll(ns, w.indentation, due),
               w.New(TextItems(p, Place(w.t, w.indentation, b), false)), w.indentation);
    }
  }

  lemma {:induction false} TextWithDue(w: Texts, a: nat, b: nat)
    requires a <= b < |w.t| && AtStart(w.t, b) && IsIndentation(w.indentation) && w.indentation != []
    ensures var u, p, m, q := w.U(), Pos(w.t, w.indentation, a), Pos(w.t, w.indentation, b), Place(w.t, w.indentation, b);
            && AllPlaced(TextItems(p, m, false), u) && AllPlaced(TextItems(p, q, false), u) && MarkersPlaced(w.New(TextItems(p, q, false)))
            && Equivalent(w.New(TextItems(p, q, false)), w.New(TextItems(p, m, false)) + Owed(w.indentation, true))
  {
    hide Pos, IndentText, Equivalent, EraseAll, AllPlaced, MarkersPlaced, AtStart, TextItems;
    var u, p, m, q := w.U(), Pos(w.t, w.indentation, a), Pos(w.t, w.indentation, b), Place(w.t, w.indentation, b);
    var owed := [Indentation.Literal(w.indentation)];
    Stretch(w.t, w.indentation, a, b);
    OneByte(w.t, w.indentation, b);
    TextErased(p, m, false, u, w.b);
    TextErased(p, q, false, u, w.b);
    PlacedOne(Indentation.Literal(u[p..q]));
    assert u[p..q] == u[p..m] + w.indentation;
    if p < m {
      TextsEquivalent(u[p..m], w.indentation);
      assert [Indentation.Literal(u[p..m])] + owed == [Indentation.Literal(u[p..m]), Indentation.Literal(w.indentation)];
    } else {
      EquivalentSelf(owed);
      assert [] + owed == owed && u[p..m] == [] && [] + w.indentation == w.indentation;
    }
  }

  lemma {:induction false} JoinOwed(before: seq<Node>, ms: seq<Node>, ks: seq<Node>, all: seq<Node>, indentation: Bytes)
    requires Equivalent(before + ms, ks + []) && Equivalent(all, ms + Owed(indentation, true))
    requires MarkersPlaced(before) && MarkersPlaced(ms) && MarkersPlaced(ks)
    ensures Equivalent(before + all, ks + Owed(indentation, true))
  {
    hide Equivalent, MarkersPlaced;
    var owed := Owed(indentation, true);
    assert ks + [] == ks && before + (ms + owed) == (before + ms) + owed;
    EquivalentSelf(owed);
    EquivalentSelf(before);
    PlacedConcat(before, ms);
    EquivalentConcat(before + ms, owed, ks, owed);
    EquivalentConcat(before, all, before, ms + owed);
    EquivalentThrough(before + all, before + (ms + owed), ks + owed);
  }

  /** Source that is not rendered. */
  lemma {:induction false} ConsumedMoves(w: Texts, a: nat, b: nat, a': nat, b': nat, due: bool)
    requires a <= b <= |w.t| && a' <= b' <= |w.U()|
    ensures Corresponds([Literal(FLAG_LAMBDA_ONLY, false, a, b)], [Literal(FLAG_LAMBDA_ONLY, false, a', b')], w,
                        due, false, TextEnd(w.t[a..b], false), false)
  {
    hide Equivalent, EraseAll, AllPlaced, IndentAll, AfterAll, MarkersPlaced, TextEnd;
    var x, y := w.t[a..b], w.U()[a'..b'];
    OneOld(Literal(FLAG_LAMBDA_ONLY, false, a, b), w);
    OneNew(Literal(FLAG_LAMBDA_ONLY, false, a', b'), w);
    ConsumedIndents(x, w.indentation, due);
    ConsumedIndents(y, w.indentation, due);
    ConsumedEquivalent(y, x);
    Unowed([Leaf(TypeOutput, FLAG_LAMBDA_ONLY, y)], [Leaf(TypeOutput, FLAG_LAMBDA_ONLY, x)], w.indentation);
  }

  lemma {:induction false} BlankEnd(x: Bytes)
    requires IsIndentation(x)
    ensures !TextEnd(x, false)
  {
    assert x != [] ==> IsIndentByte(x[|x| - 1]);
  }

  lemma {:induction false} Unowed(ms: seq<Node>, ks: seq<Node>, indentation: Bytes)
    requires Equivalent(ms, ks)
    ensures Equivalent(Owed(indentation, false) + ms, ks + Owed(indentation, false))
  {
    hide Equivalent;
    assert [] + ms == ms && ks + [] == ks;
  }

  /** The rest of the line behind a standalone tag. */
  lemma {:induction false} RestMoves(w: Texts, f: Found, f': Found)
    requires Moved(w.t, w.indentation, f, f') && IsIndentation(w.indentation)
    ensures var r, s := Standalone(w.t, f), Standalone(w.U(), f');
            && NextAfter(f, r) <= |w.t| && NextAfter(f', s) == Pos(w.t, w.indentation, NextAfter(f, r))
            && Corresponds(Behind(f, r), Behind(f', s), w, false, false, AtStart(w.t, NextAfter(f, r)), false)
  {
    hide Pos, IndentText, LineStart, LineEnd, AtStart, Equivalent, EraseAll, AllPlaced, IndentAll, AfterAll, MarkersPlaced;
    hide TextEnd;
    StandaloneMoves(w.t, w.indentation, f, f');
    var r, s := Standalone(w.t, f), Standalone(w.U(), f');
    var e, v := f.End(), NextAfter(f, r);
    Stretch(w.t, w.indentation, e, v);
    if r.Some? && e < v {
      LineEndMoves(w.t, w.indentation, f.Closed());
      PosMonotone(w.t, w.indentation, e, v);
      ConsumedMoves(w, e, v, f'.End(), s.value, false);
    } else {
      NothingErased(w.t, w.a);
      NothingErased(w.U(), w.b);
      RespellNothing(w.indentation);
      NothingIndented(w.indentation, false);
      EquivalentSelf([]);
      Unowed([], [], w.indentation);
    }
  }

  lemma {:induction false} NothingErased(t: Bytes, buffer: nat)
    ensures AllPlaced([], t) && EraseAll([], t, buffer) == []
  {
  }

  lemma {:induction false} RespellNothing(indentation: Bytes)
    ensures RespellAll([], indentation) == []
  {
  }

  // ---- The tag --------------------------------------------------------------------------------------------------

  /** A tag that is a piece of its own. */
  lemma {:induction false} LeafMoves(w: Texts, tag: Item, tag': Item, due: bool)
    requires tag.Tag? && tag'.Tag? && tag'.head == SpreadHead(tag.head, w.indentation)
    requires tag.head.change.None? && LeafHead(tag.head)
    ensures Corresponds([tag], [tag'], w, due, true, false, false)
  {
    hide Equivalent, EraseAll, AllPlaced, IndentAll, AfterAll, MarkersPlaced, Bit;
    OneOld(tag, w);
    OneNew(tag', w);
    RespellNothing(w.indentation);
    var name := if tag.head.kind.TypeComment? then tag.head.name else tag'.head.name;
    var n, m := Leaf(tag.head.kind, tag.head.flags, name), Leaf(tag.head.kind, tag.head.flags, tag'.head.name);
    LeafUnmarked(tag.head);
    LeafIndents(n, w.indentation, due);
    LeafIndents(m, w.indentation, due);
    if tag.head.kind.TypeComment? {
      CommentsEquivalent(m.data.value, n.data.value);
    } else {
      EquivalentSelf([n]);
    }
    SingleCorresponds(n, m, n, w.indentation, due);
  }

  /** A change of delimiters is no node: what was due stays due. */
  lemma {:induction false} ChangeMoves(w: Texts, tag: Item, tag': Item, due: bool)
    requires tag.Tag? && tag'.Tag? && tag.head.change.Some? && tag'.head.change.Some?
    ensures Corresponds([tag], [tag'], w, due, true, due, true)
  {
    hide Equivalent, EraseAll, AllPlaced, IndentAll, AfterAll, MarkersPlaced;
    OneOld(tag, w);
    OneNew(tag', w);
    NothingIndented(w.indentation, due);
    var owed := Owed(w.indentation, due);
    EquivalentSelf(owed);
    assert owed + [] == owed && [] + owed == owed;
  }

  /** A leaf tag, with the flags that tags can have. */
  predicate LeafHead(head: Head) {
    (head.kind.TypeVariable? && (head.flags == FLAG_NONE || head.flags == FLAG_ESCAPE))
    || ((head.kind.TypeStop? || head.kind.TypeComment? || head.kind.TypePartial?) && head.flags == FLAG_NONE)
  }

  lemma {:induction false} LeafUnmarked(head: Head)
    requires LeafHead(head)
    ensures !Bit(head.flags, FLAG_PARTIAL_INDENT)
  {
  }

  /** A standalone partial with the indentation before it. */
  lemma {:induction false} PairMoves(w: Texts, marker: Item, tag: Item, marker': Item, tag': Item)
    requires tag.Tag? && tag'.Tag? && tag'.head == SpreadHead(tag.head, w.indentation)
    requires tag.head.change.None? && LeafHead(tag.head) && tag.head.kind.TypePartial?
    requires marker.Literal? && marker.flags == FLAGS_MARKER && !marker.escaped && marker.from <= marker.to <= |w.t|
    requires marker'.Literal? && marker'.flags == FLAGS_MARKER && !marker'.escaped && marker'.from <= marker'.to <= |w.U()|
    requires IsIndentation(w.indentation) && IsIndentation(w.t[marker.from..marker.to])
    requires w.U()[marker'.from..marker'.to] == w.indentation + w.t[marker.from..marker.to]
    ensures Corresponds([marker, tag], [marker', tag'], w, true, false, false, false)
  {
    hide Equivalent, EraseAll, AllPlaced, IndentAll, AfterAll, MarkersPlaced, PartialIndentation, RespellAll;
    var x, name := w.t[marker.from..marker.to], tag'.head.name;
    TwoErased(marker, tag, w.t, w.a);
    TwoErased(marker', tag', w.U(), w.b);
    RespellPair(x, tag.head.name, w.indentation);
    PairIndents(x, name, w.indentation, true);
    SameIndentation(w.indentation, x);
    PairIndents(w.indentation + x, name, w.indentation, true);
    var pair := [Leaf(TypeOutput, FLAGS_MARKER, w.indentation + x), Leaf(TypePartial, FLAG_NONE, name)];
    assert w.New([marker', tag']) == pair;
    assert EraseAll([marker, tag], w.t, w.a) == [Leaf(TypeOutput, FLAGS_MARKER, x), Leaf(TypePartial, FLAG_NONE, tag.head.name)];
    EquivalentSelf(pair);
    Unowed(pair, pair, w.indentation);
  }

  lemma {:induction false} RespellPair(x: Bytes, name: Bytes, indentation: Bytes)
    ensures RespellAll([Leaf(TypeOutput, FLAGS_MARKER, x), Leaf(TypePartial, FLAG_NONE, name)], indentation)
         == [Leaf(TypeOutput, FLAGS_MARKER, x), Leaf(TypePartial, FLAG_NONE, Spread(name, indentation))]
  {
    var a, b := Leaf(TypeOutput, FLAGS_MARKER, x), Leaf(TypePartial, FLAG_NONE, name);
    assert [a] + [b] == [a, b];
    RespellConcat([a], [b], indentation);
    RespellOne(a, indentation);
    RespellOne(b, indentation);
  }

  lemma {:induction false} TwoErased(a: Item, b: Item, t: Bytes, buffer: nat)
    requires Placed(a, t) && Placed(b, t)
    ensures AllPlaced([a, b], t) && EraseAll([a, b], t, buffer) == Erase(a, t, buffer) + Erase(b, t, buffer)
  {
    hide Placed, Erase, EraseAll;
    OneErased(a, t, buffer);
    OneErased(b, t, buffer);
    EraseConcat([a], [b], t, buffer);
    assert [a] + [b] == [a, b];
  }

  // ---- One step --------------------------------------------------------------------------------------------------

  /** The pieces before a tag go with it only if it is a standalone partial. */
  predicate Paired(t: Bytes, f: Found)
    requires f.Within(t)
  {
    Standalone(t, f).Some? && f.head.change.None? && f.head.kind.TypePartial?
  }

  /** The parse with the pieces before a tag. */
  function Brought(t: Bytes, st: Parse, f: Found): Parse
    requires st.levels != [] && f.Within(t) && (Standalone(t, f).Some? ==> f.text <= LineStart(t, f.open))
  {
    AddAll(st, Tiling.Before(t, f, Standalone(t, f)))
  }

  function TagItem(f: Found): Item {
    Tag(f.head, f.spelling, f.open, f.End())
  }

  /** The indentation is due where a line starts; `owing`, behind changes of delimiters that started one, it is due in the tree
      and there already in the second text. */
  ghost predicate InStep(lv: seq<Level>, lw: seq<Level>, w: Texts, text: nat, owing: bool)
    requires text <= |w.t|
  {
    (owing ==> !AtStart(w.t, text)) && Mirrored(lv, lw, w, owing || AtStart(w.t, text), owing)
  }

  lemma {:induction false} BeforeMirrors(w: Texts, st: Parse, st': Parse, f: Found, f': Found, owing: bool)
    requires Moved(w.t, w.indentation, f, f') && IsIndentation(w.indentation) && w.indentation != []
    requires InStep(st.levels, st'.levels, w, f.text, owing)
    requires Standalone(w.t, f).Some? ==> f.text <= LineStart(w.t, f.open)
    ensures Standalone(w.U(), f').Some? ==> f'.text <= LineStart(w.U(), f'.open)
    ensures !Paired(w.t, f) ==>
              exists due :: Mirrored(Brought(w.t, st, f).levels, Brought(w.U(), st', f').levels, w, due, true)
                            && (due ==> Standalone(w.t, f).None?)
  {
    hide Pos, Place, IndentText, LineStart, LineEnd, AtStart, Equivalent, MirroredTop, Corresponds, Standalone;
    var t, u, r, l := w.t, w.U(), Standalone(w.t, f), LineStart(w.t, f.open);
    StandaloneMoves(t, w.indentation, f, f');
    if r.Some? {
      Stretch(t, w.indentation, f.text, l);
      TextMoves(w, f.text, l, false, owing);
      var text, text' := TextItems(f.text, l, false), TextItems(f'.text, Pos(t, w.indentation, l), false);
      assert !(owing && f.text == l);
      MirrorAdd(st, st', text, text', w, owing || AtStart(t, f.text), owing, true, false);
      if !Paired(t, f) {
        var prefix := Literal(FLAG_LAMBDA_ONLY, false, l, f.open);
        var prefix' := Literal(FLAG_LAMBDA_ONLY, false, Pos(t, w.indentation, l), f'.open);
        BlankEnd(t[l..f.open]);
        ConsumedMoves(w, l, f.open, prefix'.from, f'.open, true);
        MirrorAdd(AddAll(st, text), AddAll(st', text'), [prefix], [prefix'], w, true, false, false, false);
        AddTwice(st, text, [prefix]);
        AddTwice(st', text', [prefix']);
        assert Tiling.Before(t, f, r) == text + [prefix] && Tiling.Before(u, f', Standalone(u, f')) == text' + [prefix'];
        Unpaid(Brought(t, st, f).levels, Brought(u, st', f').levels, w, false, true);
      }
    } else {
      TextBeforeTag(w, f.text, f.open, owing);
      assert Tiling.Before(t, f, r) == TextItems(f.text, f.open, false);
      assert Tiling.Before(u, f', Standalone(u, f')) == TextItems(f'.text, f'.open, false);
      var due := (owing && f.text == f.open) || AtStart(t, f.open);
      MirrorAdd(st, st', TextItems(f.text, f.open, false), TextItems(f'.text, f'.open, false), w, owing || AtStart(t, f.text), owing, due, true);
      assert Mirrored(Brought(t, st, f).levels, Brought(u, st', f').levels, w, due, true);
    }
  }

  /** Where nothing is due, it makes no difference whether it is paid. */
  lemma {:induction false} Unpaid(lv: seq<Level>, lw: seq<Level>, w: Texts, paid: bool, paid': bool)
    requires Mirrored(lv, lw, w, false, paid)
    ensures Mirrored(lv, lw, w, false, paid')
  {
    hide Equivalent, IndentAll, AfterAll;
  }

  lemma {:induction false} PairMirrors(w: Texts, st: Parse, st': Parse, f: Found, f': Found, owing: bool)
    requires Moved(w.t, w.indentation, f, f') && IsIndentation(w.indentation) && w.indentation != []
    requires InStep(st.levels, st'.levels, w, f.text, owing)
    requires Paired(w.t, f) && f.text <= LineStart(w.t, f.open) && LeafHead(f.head)
    requires Standalone(w.U(), f').Some? ==> f'.text <= LineStart(w.U(), f'.open)
    ensures Mirrored(Add(Brought(w.t, st, f), TagItem(f)).levels, Add(Brought(w.U(), st', f'), TagItem(f')).levels, w, false, false)
  {
    hide Pos, Place, IndentText, LineStart, LineEnd, AtStart, Equivalent, MirroredTop, Corresponds, Standalone;
    var t, u, r, l := w.t, w.U(), Standalone(w.t, f), LineStart(w.t, f.open);
    StandaloneMoves(t, w.indentation, f, f');
    Stretch(t, w.indentation, f.text, l);
    TextMoves(w, f.text, l, false, owing);
    var text, text' := TextItems(f.text, l, false), TextItems(f'.text, Pos(t, w.indentation, l), false);
    assert !(owing && f.text == l);
    MirrorAdd(st, st', text, text', w, owing || AtStart(t, f.text), owing, true, false);
    var marker, marker' := Literal(FLAGS_MARKER, false, l, f.open), Literal(FLAGS_MARKER, false, Pos(t, w.indentation, l), f'.open);
    PairMoves(w, marker, TagItem(f), marker', TagItem(f'));
    MirrorAdd(AddAll(st, text), AddAll(st', text'), [marker, TagItem(f)], [marker', TagItem(f')], w, true, false, false, false);
    ThreeAdded(st, text, marker, TagItem(f));
    ThreeAdded(st', text', marker', TagItem(f'));
    assert Tiling.Before(t, f, r) == text + [marker] && Tiling.Before(u, f', Standalone(u, f')) == text' + [marker'];
  }

  lemma {:induction false} ThreeAdded(st: Parse, text: seq<Item>, marker: Item, tag: Item)
    requires st.levels != []
    ensures Add(AddAll(st, text + [marker]), tag) == AddAll(AddAll(st, text), [marker, tag])
  {
    AddTwice(st, text, [marker, tag]);
    AddTwice(st, text + [marker], [tag]);
    assert (text + [marker]) + [tag] == text + [marker, tag];
  }

  /** A tag acts alike on both parses. Behind a change of delimiters, what was due is still due. */
  lemma {:induction false} TagMirrors(w: Texts, st: Parse, st': Parse, f: Found, f': Found, o: Options, o': Options, due: bool)
    requires Moved(w.t, w.indentation, f, f') && IsIndentation(w.indentation)
    requires f.head.change.None? ==> if Opens(f.head.kind) then f.head.flags == FLAG_NONE else LeafHead(f.head)
    requires Mirrored(st.levels, st'.levels, w, due, true)
    requires TopLevel(st).body <= f.open && TopLevel(st').body <= f'.open && AddTag(st, f, o).Ok?
    ensures var r := AddTag(st', f', o');
            if r.Err? then Limit(r.error)
            else Mirrored(AddTag(st, f, o).value.levels, r.value.levels, w, due && f.head.change.Some?, true)
  {
    hide Pos, Place, AtStart, Equivalent, Mirrored, Corresponds, LeafHead;
    SameHeight(st.levels, st'.levels, w, due, true);
    TopHeads(st.levels, st'.levels, w, due, true);
    if AddTag(st', f', o').Ok? {
      if f.head.change.Some? {
        ChangeMoves(w, TagItem(f), TagItem(f'), due);
        MirrorAdd(st, st', [TagItem(f)], [TagItem(f')], w, due, true, due, true);
      } else if Opens(f.head.kind) {
        var a, b := Level(f.head, f.spelling, f.open, f.End(), []), Level(f'.head, f'.spelling, f'.open, f'.End(), []);
        MirrorOpen(st.levels, st'.levels, a, b, w, due);
        Unpaid(st.levels + [a], st'.levels + [b], w, false, true);
      } else {
        LeafMirrors(w, st, st', f, f', due);
      }
    }
  }

  lemma {:induction false} TopHeads(lv: seq<Level>, lw: seq<Level>, w: Texts, due: bool, paid: bool)
    requires Mirrored(lv, lw, w, due, paid)
    ensures |lw| == |lv| > 0 && (|lv| > 1 ==> lw[|lw| - 1].head == SpreadHead(lv[|lv| - 1].head, w.indentation))
  {
    hide MirroredTop;
  }

  lemma {:induction false} LeafMirrors(w: Texts, st: Parse, st': Parse, f: Found, f': Found, due: bool)
    requires Moved(w.t, w.indentation, f, f') && IsIndentation(w.indentation) && f.head.change.None? && LeafHead(f.head)
    requires Mirrored(st.levels, st'.levels, w, due, true)
    requires TopLevel(st).body <= f.open && TopLevel(st').body <= f'.open
    ensures Mirrored(Add(st, TagItem(f)).levels, Add(st', TagItem(f')).levels, w, false, true)
    ensures |st.levels| > 1 ==>
              |st'.levels| > 1
              && Mirrored(CloseBlock(Add(st, TagItem(f)), f).levels, CloseBlock(Add(st', TagItem(f')), f').levels, w, false, true)
  {
    hide Pos, Place, AtStart, Equivalent, Mirrored, Corresponds, LeafHead;
    SameHeight(st.levels, st'.levels, w, due, true);
    LeafMoves(w, TagItem(f), TagItem(f'), due);
    MirrorAdd(st, st', [TagItem(f)], [TagItem(f')], w, due, true, false, false);
    var more, more' := Add(st, TagItem(f)), Add(st', TagItem(f'));
    Unpaid(more.levels, more'.levels, w, false, true);
    if |st.levels| > 1 {
      MirrorClose(more, more', f, f', w);
      Unpaid(CloseBlock(more, f).levels, CloseBlock(more', f').levels, w, false, true);
    }
  }

  /** The flags that come out of a tag. */
  lemma {:induction false} HeadFlags(t: Bytes, f: Found, o: Options)
    requires Recognized(t, f, o) && f.head.change.None?
    ensures if Opens(f.head.kind) then f.head.flags == FLAG_NONE else LeafHead(f.head)
  {
    hide Trim, Words;
  }

  lemma {:induction false} SameLevels(st: Parse, before: Parse, f: Found, t: Bytes)
    requires st.levels != [] && f.Within(t) && (Standalone(t, f).Some? ==> f.text <= LineStart(t, f.open))
    requires before.levels == Brought(t, st, f).levels
    ensures before.levels != [] && TopLevel(before).body == TopLevel(st).body
  {
    hide Standalone, LineStart, Tiling.Before;
  }

  lemma {:induction false} PartialMirrors(w: Texts, st: Parse, st': Parse, f: Found, f': Found, o: Options, o': Options)
    requires st.levels != [] && st'.levels != [] && f.head.change.None? && f.head.kind.TypePartial? && AddTag(st, f, o).Ok?
    requires f'.head == SpreadHead(f.head, w.indentation)
    requires Mirrored(Add(st, TagItem(f)).levels, Add(st', TagItem(f')).levels, w, false, false)
    ensures var r := AddTag(st', f', o');
            if r.Err? then Limit(r.error) else Mirrored(AddTag(st, f, o).value.levels, r.value.levels, w, false, true)
  {
    hide AddTag, Mirrored;
    PartialAdds(st, f, o);
    PartialAdds(st', f', o');
    Unpaid(Add(st, TagItem(f)).levels, Add(st', TagItem(f')).levels, w, false, true);
  }

  /** The text before a tag and the tag keep the correspondence, unless a limit is hit. */
  lemma {:induction false} WithTagMirrors(w: Texts, st: Parse, st': Parse, before: Parse, before': Parse,
                                          f: Found, f': Found, o: Options, o': Options, owing: bool) returns (due: bool)
    requires Moved(w.t, w.indentation, f, f') && IsIndentation(w.indentation) && w.indentation != []
    requires InStep(st.levels, st'.levels, w, f.text, owing) && Recognized(w.t, f, o)
    requires TopLevel(st).body <= f.open && TopLevel(st').body <= f'.open
    requires Standalone(w.t, f).Some? ==> f.text <= LineStart(w.t, f.open)
    requires Standalone(w.U(), f').Some? ==> f'.text <= LineStart(w.U(), f'.open)
    requires before.levels == Brought(w.t, st, f).levels && AddTag(before, f, o).Ok?
    requires before'.levels == Brought(w.U(), st', f').levels
    ensures var r := AddTag(before', f', o');
            if r.Err? then Limit(r.error)
            else Mirrored(AddTag(before, f, o).value.levels, r.value.levels, w, due, true)
    ensures due ==> Standalone(w.t, f).None?
  {
    hide Pos, Place, AtStart, Equivalent, MirroredTop, Corresponds, AddTag, Standalone, LineStart, Tiling.Before, Recognized;
    hide LeafHead;
    hide Limit, ExtraBrace;
    SameLevels(st, before, f, w.t);
    SameLevels(st', before', f', w.U());
    if f.head.change.None? {
      HeadFlags(w.t, f, o);
    }
    BeforeMirrors(w, st, st', f, f', owing);
    if Paired(w.t, f) {
      PairMirrors(w, st, st', f, f', owing);
      PartialMirrors(w, before, before', f, f', o, o');
      due := false;
    } else {
      due :| Mirrored(before.levels, before'.levels, w, due, true) && (due ==> Standalone(w.t, f).None?);
      TagMirrors(w, before, before', f, f', o, o', due);
      due := due && f.head.change.Some?;
    }
  }

  /** A complete tag keeps the correspondence and the places of both scans, unless a limit is hit. */
  lemma {:induction false} StepMirrors(w: Texts, st: Parse, st': Parse, f: Found, f': Found, o: Options, o': Options,
                                       owing: bool)
    returns (owing': bool)
    requires Moved(w.t, w.indentation, f, f') && IsIndentation(w.indentation) && w.indentation != []
    requires InStep(st.levels, st'.levels, w, f.text, owing) && st.delims == st'.delims
    requires TopLevel(st).body <= f.open && TopLevel(st').body <= f'.open && Recognized(w.t, f, o) && TagStep(w.t, st, f, o).Ok?
    ensures var r, s := TagStep(w.t, st, f, o).value, TagStep(w.U(), st', f', o');
            if s.Err? then Limit(s.error)
            else
              && r.next <= |w.t| && s.value.next == Pos(w.t, w.indentation, r.next) && s.value.parse.delims == r.parse.delims
              && InStep(r.parse.levels, s.value.parse.levels, w, r.next, owing')
  {
    hide Pos, Place, AtStart, Equivalent, Mirrored, Corresponds, AddBefore, AddTag, AddAfter, Standalone, LineStart;
    hide Tiling.Before, Behind;
    hide Recognized, Limit;
    var u, r, s := w.U(), Standalone(w.t, f), Standalone(w.U(), f');
    SameHeight(st.levels, st'.levels, w, owing || AtStart(w.t, f.text), owing);
    BeforeMirrors(w, st, st', f, f', owing);
    AddBeforeAdds(w.t, st, f, r, o);
    var before := AddBefore(w.t, st, f, r, o).value;
    var tagged := AddTag(before, f, o).value;
    AddAfterAdds(tagged, f, r, o);
    StepErrors(u, st', f', o');
    owing' := false;
    if AddBefore(u, st', f', s, o').Ok? {
      AddBeforeAdds(u, st', f', s, o');
      var before' := AddBefore(u, st', f', s, o').value;
      owing' := WithTagMirrors(w, st, st', before, before', f, f', o, o', owing);
      if TagStep(u, st', f', o').Ok? {
        var tagged' := AddTag(before', f', o').value;
        AddAfterAdds(tagged', f', s, o');
        TagDelims(before, f, o);
        TagDelims(before', f', o');
        BehindMirrors(w, tagged, tagged', f, f', owing');
      }
    }
  }

  lemma {:induction false} BehindMirrors(w: Texts, st: Parse, st': Parse, f: Found, f': Found, owing: bool)
    requires Moved(w.t, w.indentation, f, f') && IsIndentation(w.indentation)
    requires Mirrored(st.levels, st'.levels, w, owing, true) && (owing ==> Standalone(w.t, f).None?)
    ensures var r, s := Standalone(w.t, f), Standalone(w.U(), f');
            && NextAfter(f, r) <= |w.t| && NextAfter(f', s) == Pos(w.t, w.indentation, NextAfter(f, r))
            && InStep(AddAll(st, Behind(f, r)).levels, AddAll(st', Behind(f', s)).levels, w, NextAfter(f, r), owing)
  {
    hide Pos, Place, AtStart, Equivalent, MirroredTop, Corresponds, Standalone;
    var r, s := Standalone(w.t, f), Standalone(w.U(), f');
    RestMoves(w, f, f');
    if owing {
      StandaloneMoves(w.t, w.indentation, f, f');
      AddNone(st);
      AddNone(st');
    } else {
      Unpaid(st.levels, st'.levels, w, true, false);
      MirrorAdd(st, st', Behind(f, r), Behind(f', s), w, false, false, AtStart(w.t, NextAfter(f, r)), false);
    }
  }

  lemma {:induction false} SameHeight(lv: seq<Level>, lw: seq<Level>, w: Texts, due: bool, paid: bool)
    requires Mirrored(lv, lw, w, due, paid)
    ensures |lw| == |lv| > 0
  {
  }

  lemma {:induction false} PartialAdds(st: Parse, f: Found, o: Options)
    requires st.levels != [] && f.head.change.None? && f.head.kind.TypePartial?
    ensures var r := AddTag(st, f, o);
            if r.Err? then r.error == ParseNodes else r.value.levels == Add(st, TagItem(f)).levels
  {
  }

  lemma {:induction false} TagDelims(st: Parse, f: Found, o: Options)
    requires st.levels != []
    ensures var r := AddTag(st, f, o);
            r.Ok? ==> r.value.delims == if f.head.change.Some? then f.head.change.value else st.delims
  {
  }

  /** Where a step can fail. */
  lemma {:induction false} StepErrors(tmpl: Bytes, st: Parse, f: Found, o: Options)
    requires st.levels != [] && f.Within(tmpl)
    requires ExtraBrace(f.spelling, f.head.change.Some?) ==> MatchesAt(tmpl, f.Closed(), CLOSING_BRACE)
    requires Standalone(tmpl, f).Some? ==> f.text <= LineStart(tmpl, f.open)
    ensures var r, before := TagStep(tmpl, st, f, o), AddBefore(tmpl, st, f, Standalone(tmpl, f), o);
            r.Err? ==> Limit(r.error) || (before.Ok? && AddTag(before.value, f, o) == Err(r.error))
  {
    hide AddTag, Standalone, LineStart;
  }

  // ---- The whole scan -------------------------------------------------------------------------------------------

  lemma {:induction false} TagParses(tmpl: Bytes, text: nat, open: nat, close: nat, st: Parse, o: Options)
    requires st.levels != [] && text <= |tmpl| && Usable(st.delims) && FindAt(tmpl, text, st.delims.start) == Some(open)
    requires FindAt(tmpl, Inside(tmpl, open, st.delims.start), st.delims.stop) == Some(close)
    ensures var found := FindTag(tmpl, text, open, close, st.delims, o);
            ParseFrom(tmpl, text, st, o) == Err(TagSize)
            || match found
               case Err(e) => ParseFrom(tmpl, text, st, o) == Err(e)
               case Ok(f) =>
                 Recognized(tmpl, f, o)
                 && match TagStep(tmpl, st, f, o)
                    case Err(e) => ParseFrom(tmpl, text, st, o) == Err(e)
                    case Ok(s) => Usable(s.parse.delims) && ParseFrom(tmpl, text, st, o) == ParseFrom(tmpl, s.next, s.parse, o)
  {
    hide FindAt, FindTag, TagStep, Recognized;
    assert ParseFrom(tmpl, text, st, o) == ParseTag(tmpl, text, open, st, o);
    var found := FindTag(tmpl, text, open, close, st.delims, o);
    if ParseTag(tmpl, text, open, st, o) != Err(TagSize) && found.Ok? {
      FoundRecognized(tmpl, text, open, close, st.delims, o);
      UsableAfter(tmpl, st, found.value, o);
    }
  }

  /** A parse that succeeds has found its next tag. */
  lemma {:induction false} TagOf(tmpl: Bytes, text: nat, open: nat, st: Parse, o: Options) returns (f: Found, stepped: Stepped)
    requires st.levels != [] && text <= |tmpl| && SteadyDelims(st.delims) && FindAt(tmpl, text, st.delims.start) == Some(open)
    requires ParseFrom(tmpl, text, st, o).Ok?
    ensures f.text == text && f.open == open && f.Within(tmpl) && Recognized(tmpl, f, o)
    ensures FindAt(tmpl, Inside(tmpl, open, st.delims.start), st.delims.stop) == Some(f.close)
    ensures FindTag(tmpl, text, open, f.close, st.delims, o) == Ok(f)
    ensures ExtraBrace(f.spelling, f.head.change.Some?) ==> MatchesAt(tmpl, f.Closed(), CLOSING_BRACE)
    ensures TagStep(tmpl, st, f, o) == Ok(stepped) && text < stepped.next <= |tmpl| && SteadyDelims(stepped.parse.delims)
    ensures Standalone(tmpl, f).Some? ==> f.text <= LineStart(tmpl, f.open)
    ensures ParseFrom(tmpl, text, st, o) == ParseFrom(tmpl, stepped.next, stepped.parse, o)
  {
    hide FindAt, Classify, Recognized, AddBefore, AddTag, AddAfter, LineStart, Standalone, Steady;
    SteadyUsable(st.delims);
    var close := FindAt(tmpl, Inside(tmpl, open, st.delims.start), st.delims.stop);
    f := FindTag(tmpl, text, open, close.value, st.delims, o).value;
    TagParses(tmpl, text, open, close.value, st, o);
    stepped := TagStep(tmpl, st, f, o).value;
    StepDelims(tmpl, st, f, o);
  }

  lemma {:induction false} SteadyUsable(d: Delims)
    requires SteadyDelims(d)
    ensures Usable(d)
  {
  }

  /** The delimiters a tag sets are steady. */
  lemma {:induction false} StepDelims(tmpl: Bytes, st: Parse, f: Found, o: Options)
    requires st.levels != [] && f.Within(tmpl) && SteadyDelims(st.delims) && Recognized(tmpl, f, o)
    ensures var r := TagStep(tmpl, st, f, o); r.Ok? ==> SteadyDelims(r.value.parse.delims)
  {
    hide Classify, Steady, LineStart, Standalone, AddTag, IsWord;
    ChangeUsable(f.spelling.raw, f.spelling.triple, o.escapeByDefault, o.limits.maxDelimiterBytes);
    if TagStep(tmpl, st, f, o).Ok? {
      var before := AddBefore(tmpl, st, f, Standalone(tmpl, f), o);
      TagDelims(before.value, f, o);
      if f.head.change.Some? {
        WordsSteady(f.head.change.value.start);
        WordsSteady(f.head.change.value.stop);
      }
    }
  }

  lemma {:induction false} BodyBefore(levels: seq<Level>, to: nat, tmpl: Bytes, o: Options)
    requires Stacked(levels, to, tmpl, o)
    ensures levels[|levels| - 1].body <= to
  {
    var top := levels[|levels| - 1];
    TilesOrdered(top.items, top.body, to);
  }

  /** One tag, with the tiling of both texts. */
  lemma {:induction false} StepsMirror(w: Texts, st: Parse, st': Parse, f: Found, f': Found, o: Options, o': Options,
                                       owing: bool)
    returns (owing': bool)
    requires Moved(w.t, w.indentation, f, f') && IsIndentation(w.indentation) && w.indentation != []
    requires InStep(st.levels, st'.levels, w, f.text, owing) && st.delims == st'.delims
    requires Stacked(st.levels, f.text, w.t, o) && Stacked(st'.levels, f'.text, w.U(), o')
    requires Recognized(w.t, f, o) && Recognized(w.U(), f', o') && TagStep(w.t, st, f, o).Ok?
    ensures var r, s := TagStep(w.t, st, f, o).value, TagStep(w.U(), st', f', o');
            if s.Err? then Limit(s.error)
            else
              && r.next <= |w.t| && s.value.next == Pos(w.t, w.indentation, r.next) <= |w.U()|
              && s.value.parse.delims == r.parse.delims && InStep(r.parse.levels, s.value.parse.levels, w, r.next, owing')
              && Stacked(r.parse.levels, r.next, w.t, o) && Stacked(s.value.parse.levels, s.value.next, w.U(), o')
  {
    hide Pos, Place, AtStart, TagStep, Recognized, Run, SpelledTag, InStep, Limit;
    BodyBefore(st.levels, f.text, w.t, o);
    BodyBefore(st'.levels, f'.text, w.U(), o');
    owing' := StepMirrors(w, st, st', f, f', o, o', owing);
    StepTiles(w.t, st, f, o);
    if TagStep(w.U(), st', f', o').Ok? {
      StepTiles(w.U(), st', f', o');
    }
  }

  /** The text behind the last tag. */
  lemma {:induction false} EndMirrors(w: Texts, text: nat, st: Parse, st': Parse, o: Options, o': Options, owing: bool)
    requires IsIndentation(w.indentation) && w.indentation != [] && text <= |w.t| && Usable(st.delims) && Usable(st'.delims)
    requires o'.escapeOutput == o.escapeOutput && Pos(w.t, w.indentation, text) <= |w.U()|
    requires InStep(st.levels, st'.levels, w, text, owing)
    requires FindAt(w.t, text, st.delims.start).None? && ParseFrom(w.t, text, st, o).Ok?
    requires FindAt(w.U(), Pos(w.t, w.indentation, text), st'.delims.start).None?
    ensures var r, s := ParseFrom(w.t, text, st, o).value, ParseFrom(w.U(), Pos(w.t, w.indentation, text), st', o');
            if s.Err? then Limit(s.error) else InStep(r.levels, s.value.levels, w, |w.t|, owing && text == |w.t|)
  {
    hide Pos, Place, AtStart, MirroredTop, Corresponds, FindAt;
    var place := Pos(w.t, w.indentation, text);
    TextMoves(w, text, |w.t|, o.escapeOutput, owing);
    Ends(w.t, w.indentation);
    var items, items' := TextItems(text, |w.t|, o.escapeOutput), TextItems(place, |w.U()|, o.escapeOutput);
    AddNone(st);
    AddNone(st');
    MirrorAdd(st, st', items, items', w, owing || AtStart(w.t, text), owing,
              (owing && text == |w.t|) || AtStart(w.t, |w.t|), owing && text == |w.t|);
  }

  /** Reading the two texts from corresponding places: the second reading ends like the first, or at a limit. */
  lemma {:induction false} ParseMirrors(w: Texts, text: nat, st: Parse, st': Parse, o: Options, o': Options, owing: bool)
    returns (owing': bool)
    requires IsIndentation(w.indentation) && w.indentation != [] && text <= |w.t|
    requires SteadyDelims(st.delims) && st.delims == st'.delims
    requires o'.escapeByDefault == o.escapeByDefault && o'.escapeOutput == o.escapeOutput
    requires InStep(st.levels, st'.levels, w, text, owing) && Pos(w.t, w.indentation, text) <= |w.U()|
    requires Stacked(st.levels, text, w.t, o) && Stacked(st'.levels, Pos(w.t, w.indentation, text), w.U(), o')
    requires ParseFrom(w.t, text, st, o).Ok?
    ensures var r, s := ParseFrom(w.t, text, st, o).value, ParseFrom(w.U(), Pos(w.t, w.indentation, text), st', o');
            if s.Err? then Limit(s.error) else InStep(r.levels, s.value.levels, w, |w.t|, owing')
    decreases |w.t| - text
  {
    hide Pos, Place, AtStart, ParseTag, TagStep, FindAt, FindTag, Recognized, Stacked, Moved, Standalone, LineStart, InStep;
    hide Steady;
    hide Limit;
    var t, u, place := w.t, w.U(), Pos(w.t, w.indentation, text);
    SteadyUsable(st.delims);
    FindMoves(t, w.indentation, text, st.delims.start);
    StackedHeight(st.levels, text, t, o);
    StackedHeight(st'.levels, place, u, o');
    var open := FindAt(t, text, st.delims.start);
    if open.Some? {
      var f, stepped := TagOf(t, text, open.value, st, o);
      FoundMoves(t, w.indentation, f, st.delims, o, o');
      var open', close' := Place(t, w.indentation, f.open), Place(t, w.indentation, f.close);
      var found := FindTag(u, place, open', close', st.delims, o');
      TagParses(u, place, open', close', st', o');
      owing' := false;
      if found.Ok? && ParseFrom(u, place, st', o') != Err(TagSize) {
        var f' := found.value;
        var next := StepsMirror(w, st, st', f, f', o, o', owing);
        if TagStep(u, st', f', o').Ok? {
          owing' := ParseMirrors(w, stepped.next, stepped.parse, TagStep(u, st', f', o').value.parse, o, o', next);
        }
      } else {
        TooLong();
      }
    } else {
      owing' := owing && text == |t|;
      EndMirrors(w, text, st, st', o, o', owing);
    }
  }

  lemma {:induction false} TooLong()
    ensures Limit(TagSize)
  {
  }

  lemma {:induction false} StackedHeight(levels: seq<Level>, to: nat, tmpl: Bytes, o: Options)
    requires Stacked(levels, to, tmpl, o)
    ensures levels != []
  {
  }

  /** The last line is in the text but not in the nodes: it holds nothing but changes of delimiters. */
  predicate LastLineLost(t: Bytes, ns: seq<Node>) {
    AfterAll(ns, true) && !AtStart(t, |t|)
  }

  /** Tokenizing the text with the indentation before each line: unless a limit is hit, the nodes render like those of the text,
      respelled, with the indentation put in, and the indentation of a last line that is lost to the nodes. */
  lemma {:induction false} IndentedNodes(w: Texts, d: Delims, o: Options, o': Options)
    requires IsIndentation(w.indentation) && w.indentation != [] && SteadyDelims(d) && Usable(d)
    requires o'.escapeByDefault == o.escapeByDefault && o'.escapeOutput == o.escapeOutput && Pieces(w.t, d, o).Ok?
    ensures var r, s := Pieces(w.t, d, o).value, Pieces(w.U(), d, o');
            if s.Err? then Limit(s.error)
            else
              && AllPlaced(r, w.t) && AllPlaced(s.value, w.U()) && MarkersPlaced(w.Old(r))
              && Equivalent(w.New(s.value), IndentAll(w.Old(r), w.indentation, true)
                                            + Owed(w.indentation, LastLineLost(w.t, w.Old(r))))
  {
    hide Equivalent, ParseFrom, IndentAll, Pos, Place, AtStart, Steady;
    NothingOpen(d, w.t, o);
    NothingOpen(d, w.U(), o');
    Ends(w.t, w.indentation);
    EmptyTop(Initial(d).levels[0], Initial(d).levels[0], true, w);
    StartsLine(w.t);
    assert InStep(Initial(d).levels, Initial(d).levels, w, 0, false);
    var owing := ParseMirrors(w, 0, Initial(d), Initial(d), o, o', false);
  }

  lemma {:induction false} StartsLine(t: Bytes)
    ensures AtStart(t, 0)
  {
  }
}
