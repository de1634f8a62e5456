/** Indenting the source of a template, and indenting its tree. */
module IndentedTemplates {
  import opened Base
  import opened Strings
  import opened Template
  import opened RenderTrace
  import opened SourceTree
  import opened TokenizerSpec
  import opened TokenizerRoom
  import opened Tiling
  import opened TokenizerTheorems
  import opened TokenizerResults
  import opened Indentation
  import opened IndentedText
  import opened IndentedSource
  import opened IndentedParse
  import opened SameMeaning
  import TemplateLife

  // ---- No indentation -------------------------------------------------------------------------------------------

  lemma {:induction false} NoIndentText(x: Bytes, start: bool)
    ensures IndentText(x, [], start) == x
  {
    if x != [] {
      NoIndentText(x[1..], x[0] == NEWLINE);
      assert [] + [x[0]] + x[1..] == x;
    }
  }

  lemma {:induction false} SpreadNone(s: Bytes)
    ensures Spread(s, []) == s
  {
    if s != [] {
      SpreadNone(s[1..]);
      assert [s[0]] + [] + s[1..] == s;
    }
  }

  /** A literal without text before a node: where it is too deep, so is the node. */
  lemma {:induction false} NoLiteral(n: Node, due: bool)
    requires n.Node? && !Bit(n.flags, FLAG_PARTIAL_INDENT)
    ensures Equivalent(Owed([], due) + [n], [n])
  {
    hide TraceNode, Meant, Together, Bit;
    var empty := Indentation.Literal([]);
    if due {
      forall c: Context, stack: seq<Data>, depth: nat | stack != [] && depth <= NESTING_CEILING
        ensures Together([empty] + [n], c, stack, depth) == Together([n], c, stack, depth)
      {
        OwedPlaced([], true);
        TogetherConcat([empty], [n], c, stack, depth);
        TextTogether([], c, stack, depth);
        if depth < NESTING_CEILING {
          JoinNothing(Together([n], c, stack, depth));
        } else {
          OneTogether(n, c, stack, depth);
          EntersTooDeep(n, c, stack, None, depth, None, false);
          TooDeepMeant(depth);
        }
      }
    } else {
      assert [] + [n] == [n];
      EquivalentSelf([n]);
    }
  }

  /** Putting in no indentation makes no difference, nor does the buffer in which the source is kept. */
  lemma {:induction false} NothingIndentedIn(items: seq<Item>, w: Texts, o: Options, start: bool)
    requires w.indentation == [] && w.U() == w.t && AllSpelled(items, w.t, o) && Settled(items) && AllPlaced(items, w.t)
    ensures Equivalent(IndentAll(w.Old(items), [], start), w.New(items))
    decreases items, 1
  {
    hide Equivalent, Spelled, Placed, EraseAll, IsMarkerItem, IsTagOf, Settled, MarkersPlaced, IndentAll, AfterAll;
    hide RespellAll, Indented;
    if items == [] {
      NothingErased(w.t, w.a);
      NothingErased(w.t, w.b);
      RespellNothing([]);
      NothingIndented([], start);
      EquivalentSelf([]);
    } else {
      SettledTail(items);
      var k := if IsMarkerItem(items[0]) then 2 else 1;
      var first, rest := items[..k], items[k..];
      assert items == first + rest;
      NotBoth(items[k - 1]);
      SettledCut(items, k);
      FirstIndentedIn(first, w, o);
      EraseConcat(first, rest, w.t, w.a);
      EraseConcat(first, rest, w.t, w.b);
      RespellConcat(EraseAll(first, w.t, w.a), EraseAll(rest, w.t, w.a), []);
      var ns := w.Old(first);
      IndentAllConcat(ns, w.Old(rest), [], start);
      NothingIndentedIn(rest, w, o, AfterAll(ns, start));
      if k == 2 {
        assert first == [items[0], items[1]];
        NothingInPair(items[0], items[1], w, o, start);
      } else {
        assert first == [items[0]];
        NothingInItem(items[0], w, o, start);
      }
      IndentAllPlaced(ns, [], start);
      EquivalentConcat(IndentAll(ns, [], start), IndentAll(w.Old(rest), [], AfterAll(ns, start)), w.New(first), w.New(rest));
    }
  }

  lemma {:induction false} FirstIndentedIn(first: seq<Item>, w: Texts, o: Options)
    requires w.U() == w.t && AllSpelled(first, w.t, o) && Settled(first)
    ensures AllPlaced(first, w.t) && MarkersPlaced(w.Old(first)) && MarkersPlaced(w.New(first))
  {
    hide AllSpelled, Settled, MarkersPlaced, EraseAll, RespellAll, Indented;
    ItemsShape(first, w.t, w.a, o);
    ItemsShape(first, w.t, w.b, o);
    RespellPlaced(EraseAll(first, w.t, w.a), w.indentation);
  }

  lemma {:induction false} SettledCut(items: seq<Item>, k: nat)
    requires Settled(items) && k <= |items| && (k > 0 ==> !IsMarkerItem(items[k - 1]))
    ensures Settled(items[..k]) && Settled(items[k..])
  {
    hide IsMarkerItem, IsTagOf;
    forall i | 0 <= i < k && IsMarkerItem(items[..k][i])
      ensures i + 1 < k && IsTagOf(items[..k][i + 1], TypePartial)
    {
      assert IsMarkerItem(items[i]) && i != k - 1;
    }
    forall i | 0 <= i < |items| - k && IsMarkerItem(items[k..][i])
      ensures i + 1 < |items| - k && IsTagOf(items[k..][i + 1], TypePartial)
    {
      assert IsMarkerItem(items[k + i]) && items[k..][i + 1] == items[k + i + 1];
    }
  }

  lemma {:induction false} NothingInPair(marker: Item, tag: Item, w: Texts, o: Options, start: bool)
    requires w.indentation == [] && w.U() == w.t && Placed(marker, w.t)
    requires IsMarkerItem(marker) && IsTagOf(tag, TypePartial) && Spelled(marker, w.t, o) && Spelled(tag, w.t, o)
    ensures AllPlaced([marker, tag], w.t)
    ensures Equivalent(IndentAll(w.Old([marker, tag]), [], start), w.New([marker, tag]))
  {
    hide Equivalent, EraseAll, AllPlaced, IndentAll, AfterAll, Classify, RespellAll, Indented;
    TwoErased(marker, tag, w.t, w.a);
    TwoErased(marker, tag, w.t, w.b);
    LeafFlags(tag.spelling, tag.head, o);
    var x := w.t[marker.from..marker.to];
    RespellPair(x, tag.head.name, []);
    SpreadNone(tag.head.name);
    PairIndents(x, tag.head.name, [], start);
    assert [] + x == x;
    var pair := [Leaf(TypeOutput, FLAGS_MARKER, x), Leaf(TypePartial, FLAG_NONE, tag.head.name)];
    assert EraseAll([marker, tag], w.t, w.a) == pair && EraseAll([marker, tag], w.t, w.b) == pair;
    EquivalentSelf(pair);
  }

  lemma {:induction false} LeafFlags(spelling: Spelling, head: Head, o: Options)
    requires Classify(spelling.raw, spelling.triple, o.escapeByDefault, o.limits.maxDelimiterBytes) == Ok(head)
    requires head.change.None?
    ensures if Opens(head.kind) then head.flags == FLAG_NONE else LeafHead(head)
  {
    hide Trim, Words;
  }

  lemma {:induction false} NothingInItem(item: Item, w: Texts, o: Options, start: bool)
    requires w.indentation == [] && w.U() == w.t && Spelled(item, w.t, o) && Placed(item, w.t) && !IsMarkerItem(item)
    ensures AllPlaced([item], w.t)
    ensures Equivalent(IndentAll(w.Old([item]), [], start), w.New([item]))
    decreases item, 0
  {
    hide Equivalent, EraseAll, IndentAll, AfterAll, Classify, Settled, Tiles, ClosedBy, Indent, IndentText, RespellAll;
    hide Indented;
    OneOld(item, w);
    OneNew(item, w);
    RespellNothing([]);
    match item {
      case Literal(flags, escaped, from, to) =>
        var x := if escaped then RenderTrace.Escaped(w.t[from..to]) else w.t[from..to];
        NoIndentText(x, start);
        TextIndents(x, [], start);
        ConsumedIndents(x, [], start);
        EquivalentSelf(w.New([item]));
      case Tag(head, spelling, _, _) =>
        if head.change.None? {
          LeafFlags(spelling, head, o);
          LeafUnmarked(head);
          SpreadNone(head.name);
          LeafIndents(Leaf(head.kind, head.flags, head.name), [], start);
          NoLiteral(Leaf(head.kind, head.flags, head.name), start);
        } else {
          NothingIndented([], start);
          EquivalentSelf([]);
        }
      case Block(head, spelling, _, _, _, _, items) =>
        NothingIndentedIn(items, w, o, false);
        LeafFlags(spelling, head, o);
        SpreadNone(head.name);
        var n, m := Respell(Erase(item, w.t, w.a)[0], []), Erase(item, w.t, w.b)[0];
        SectionIndents(n, [], start);
        SectionsEquivalent(Indent(n, [], start), m);
        NoLiteral(m, start);
        OwedPlaced([], start);
        EquivalentSelf(Owed([], start));
        EquivalentConcat(Owed([], start), [Indent(n, [], start)], Owed([], start), [m]);
        EquivalentThrough(Owed([], start) + [Indent(n, [], start)], Owed([], start) + [m], [m]);
    }
  }

  // ---- The last line ---------------------------------------------------------------------------------------------

  /** A change of delimiters, or no text at all: nothing of it is rendered. */
  predicate Nothing(item: Item) {
    (item.Tag? && item.head.change.Some?) || (item.Literal? && item.flags == FLAG_NONE && item.from == item.to)
  }

  /** The pieces are at their beginning or end with a line. */
  predicate EndsLine(items: seq<Item>, t: Bytes) {
    items == []
    || (var last := items[|items| - 1]; last.Literal? && last.from < last.to <= |t| && t[last.to - 1] == NEWLINE)
  }

  /** Behind the last line that they end, the pieces are nothing but changes of delimiters. */
  predicate EndsInChanges(items: seq<Item>, t: Bytes) {
    items != []
    && var before := items[..|items| - 1];
       Nothing(items[|items| - 1]) && (EndsLine(before, t) || EndsInChanges(before, t))
  }

  lemma {:induction false} AfterText(x: Bytes, flags: int, escaped: bool, start: bool)
    requires flags == FLAG_NONE || (flags == FLAG_LAMBDA_ONLY && !escaped)
    ensures AfterAll([Leaf(TypeOutput, flags, Shown(x, escaped))], start)
         == if x == [] then start && flags == FLAG_NONE else x[|x| - 1] == NEWLINE
  {
    hide AfterAll, IndentAll, IndentText, RenderTrace.Escaped;
    EscapedIndented(x, [], start);
    if flags == FLAG_NONE {
      TextIndents(Shown(x, escaped), [], start);
    } else {
      ConsumedIndents(x, [], start);
    }
  }

  lemma {:induction false} AfterLast(item: Item, t: Bytes, a: nat, o: Options, start: bool)
    requires Spelled(item, t, o) && Placed(item, t) && !IsMarkerItem(item)
    ensures AllPlaced([item], t)
    ensures AfterAll(EraseAll([item], t, a), start)
         == if Nothing(item) then start else item.Literal? && item.from < item.to && t[item.to - 1] == NEWLINE
  {
    hide EraseAll, IndentAll, AfterAll, Classify, Settled, Tiles, ClosedBy, Indent, IndentText, RenderTrace.Escaped;
    OneErased(item, t, a);
    match item {
      case Literal(flags, escaped, from, to) => AfterText(t[from..to], flags, escaped, start);
      case Tag(head, spelling, _, _) =>
        if head.change.None? {
          LeafFlags(spelling, head, o);
          LeafUnmarked(head);
          LeafIndents(Leaf(head.kind, head.flags, head.name), [], start);
        } else {
          NothingIndented([], start);
        }
      case Block(head, spelling, _, _, _, _, _) =>
        LeafFlags(spelling, head, o);
        SectionIndents(Erase(item, t, a)[0], [], start);
    }
  }

  lemma {:induction false} AfterPair(marker: Item, tag: Item, t: Bytes, a: nat, o: Options, start: bool)
    requires IsMarkerItem(marker) && IsTagOf(tag, TypePartial) && Spelled(marker, t, o) && Spelled(tag, t, o) && Placed(marker, t)
    ensures AllPlaced([marker, tag], t) && AfterAll(EraseAll([marker, tag], t, a), start) == false
  {
    hide EraseAll, IndentAll, AfterAll, Classify;
    TwoErased(marker, tag, t, a);
    LeafFlags(tag.spelling, tag.head, o);
    var x := t[marker.from..marker.to];
    PairIndents(x, tag.head.name, [], start);
    assert EraseAll([marker, tag], t, a) == [Leaf(TypeOutput, FLAGS_MARKER, x), Leaf(TypePartial, FLAG_NONE, tag.head.name)];
  }

  /** A source line starts after the tree exactly when the pieces end a line, or changes of delimiters follow that leave nothing
      in the tree. */
  lemma {:induction false} AfterPieces(items: seq<Item>, t: Bytes, a: nat, o: Options)
    requires AllSpelled(items, t, o) && Settled(items) && AllPlaced(items, t)
    ensures AfterAll(EraseAll(items, t, a), true) <==> EndsLine(items, t) || EndsInChanges(items, t)
    decreases |items|
  {
    hide Spelled, Placed, EraseAll, IsMarkerItem, IsTagOf, Settled, MarkersPlaced, AfterAll, Nothing;
    var n := |items|;
    if n == 0 {
      EmptyAfter(t, a);
    } else {
      LastSettled(items);
      var k := if n > 1 && IsMarkerItem(items[n - 2]) then n - 2 else n - 1;
      var before, last := items[..k], items[k..];
      assert items == before + last;
      SettledCut(items, k);
      AfterPieces(before, t, a, o);
      ItemsShape(before, t, a, o);
      EraseConcat(before, last, t, a);
      IndentAllConcat(EraseAll(before, t, a), EraseAll(last, t, a), [], true);
      var start := AfterAll(EraseAll(before, t, a), true);
      if k == n - 2 {
        assert last == [items[n - 2], items[n - 1]];
        AfterPair(items[n - 2], items[n - 1], t, a, o, start);
        PartialIsSomething(items[n - 1]);
      } else {
        assert last == [items[n - 1]];
        AfterLast(items[n - 1], t, a, o, start);
        EndsWithLast(items, t, o);
      }
    }
  }

  lemma {:induction false} EmptyAfter(t: Bytes, a: nat)
    ensures AllPlaced([], t) && AfterAll(EraseAll([], t, a), true)
  {
  }

  lemma {:induction false} LastSettled(items: seq<Item>)
    requires Settled(items) && items != []
    ensures !IsMarkerItem(items[|items| - 1])
    ensures |items| > 1 && IsMarkerItem(items[|items| - 2]) ==>
              IsTagOf(items[|items| - 1], TypePartial) && (|items| > 2 ==> !IsMarkerItem(items[|items| - 3]))
  {
    hide IsTagOf, IsMarkerItem;
    NotBoth(items[|items| - 1]);
    if |items| > 2 {
      NotBoth(items[|items| - 2]);
    }
  }

  lemma {:induction false} PartialIsSomething(item: Item)
    requires IsTagOf(item, TypePartial)
    ensures item.Tag? && !Nothing(item)
  {
  }

  lemma {:induction false} EndsWithLast(items: seq<Item>, t: Bytes, o: Options)
    requires items != [] && AllSpelled(items, t, o)
    ensures var last, before := items[|items| - 1], items[..|items| - 1];
            && (Nothing(last) ==> !EndsLine(items, t) && (EndsInChanges(items, t) <==> EndsLine(before, t) || EndsInChanges(before, t)))
            && (!Nothing(last) ==>
                  !EndsInChanges(items, t)
                  && (EndsLine(items, t) <==> last.Literal? && last.from < last.to && t[last.to - 1] == NEWLINE))
  {
    assert Spelled(items[|items| - 1], t, o);
  }

  /** What is lost: the tree of an accepted template lacks its last line exactly when nothing but changes of delimiters follow
      the last line that its pieces end. */
  lemma {:induction false} LostLine(t: Bytes, d: Delims, a: nat, o: Options)
    requires Usable(d) && Pieces(t, d, o).Ok?
    ensures var items := Pieces(t, d, o).value;
            AllPlaced(items, t) && (LastLineLost(t, EraseAll(items, t, a)) <==> EndsInChanges(items, t) && !AtStart(t, |t|))
  {
    hide Pieces, EraseAll, AllSpelled, Settled, AfterAll, AllPlaced, EndsInChanges;
    var items := PiecesRun(t, d, o);
    AfterPieces(items, t, a, o);
    LineAtEnd(items, t);
  }

  lemma {:induction false} LineAtEnd(items: seq<Item>, t: Bytes)
    requires Tiles(items, 0, |t|)
    ensures EndsLine(items, t) ==> AtStart(t, |t|)
  {
    LastTo(items, 0, |t|);
  }

  lemma {:induction false} LastTo(items: seq<Item>, from: nat, to: nat)
    requires Tiles(items, from, to)
    ensures if items == [] then from == to else items[|items| - 1].to == to
  {
    if |items| > 1 {
      LastTo(items[1..], items[0].to, to);
    }
  }

  // ---- Source and tree ------------------------------------------------------------------------------------------

  /** A template that is accepted with these delimiters, and options for reading it once it is indented. */
  predicate Indentable(w: Texts, d: Delims, o: Options, o': Options) {
    && IsIndentation(w.indentation) && SteadyDelims(d) && Usable(d) && Pieces(w.t, d, o).Ok?
    && o'.escapeByDefault == o.escapeByDefault && o'.escapeOutput == o.escapeOutput
  }

  /** The tree lacks the last line, which is nothing but changes of delimiters, and with it its indentation. */
  predicate Lacking(w: Texts, items: seq<Item>) {
    w.indentation != [] && EndsInChanges(items, w.t) && !AtStart(w.t, |w.t|)
  }

  lemma {:induction false} NodesIndented(w: Texts, d: Delims, o: Options, o': Options)
    requires Indentable(w, d, o, o')
    ensures var r, s := Pieces(w.t, d, o).value, Pieces(w.U(), d, o');
            if s.Err? then Limit(s.error)
            else
              && AllPlaced(r, w.t) && AllPlaced(s.value, w.U()) && MarkersPlaced(w.Old(r))
              && Equivalent(w.New(s.value), IndentAll(w.Old(r), w.indentation, true) + Owed(w.indentation, Lacking(w, r)))
  {
    hide Pieces, Equivalent, IndentAll, EraseAll, Settled, AllSpelled, AllPlaced, RespellAll, AfterAll, MarkersPlaced;
    hide Steady, EndsInChanges;
    if w.indentation == [] {
      NoIndentText(w.t, true);
      LimitsKeepPieces(w.t, d, o, o');
      var r := PiecesRun(w.t, d, o);
      FirstIndentedIn(r, w, o);
      NothingIndentedIn(r, w, o, true);
      var ks := IndentAll(w.Old(r), [], true);
      assert ks + Owed([], false) == ks;
      EquivalentTurned(ks, w.New(r));
      EquivalentTurned(w.New(r), ks);
    } else {
      IndentedNodes(w, d, o, o');
      if Pieces(w.U(), d, o').Ok? {
        LostLine(w.t, d, w.a, o);
        AfterAllRespelled(EraseAll(Pieces(w.t, d, o).value, w.t, w.a), w.indentation, true);
      }
    }
  }

  /** What the indentation of the last line comes to where the tree lacks it. */
  function LastLine(w: Texts, items: seq<Item>, depth: nat): Meaning {
    if !Lacking(w, items) then Meaning([], None)
    else if depth + 1 < NESTING_CEILING then Meaning(w.indentation, None)
    else Meaning([], Some(RenderNesting))
  }

  lemma {:induction false} RootIndents(ns: seq<Node>, indentation: Bytes)
    ensures Respell(RootNode(ns), indentation) == RootNode(RespellAll(ns, indentation))
    ensures Indent(RootNode(ns), indentation, true) == RootNode(IndentAll(ns, indentation, true))
  {
    hide IndentAll, RespellAll;
  }

  lemma {:induction false} RootWithLast(ks: seq<Node>, w: Texts, items: seq<Item>, c: Context, stack: seq<Data>, depth: nat)
    requires MarkersPlaced(ks) && stack != [] && depth <= NESTING_CEILING
    ensures Meant(TraceNode(RootNode(ks + Owed(w.indentation, Lacking(w, items))), c, stack, None, depth, None, false).events)
         == Join(Meant(TraceNode(RootNode(ks), c, stack, None, depth, None, false).events), LastLine(w, items, depth))
  {
    hide Meant, TraceNode, Together, MarkersPlaced, Lacking;
    var lacking := Lacking(w, items);
    var owed := Owed(w.indentation, lacking);
    if depth == NESTING_CEILING {
      RootTooDeep(ks, c, stack);
      RootTooDeep(ks + owed, c, stack);
    } else if lacking {
      RootTogether(ks, c, stack, depth);
      RootTogether(ks + owed, c, stack, depth);
      TogetherConcat(ks, owed, c, stack, depth + 1);
      TextTogether(w.indentation, c, stack, depth + 1);
    } else {
      assert ks + owed == ks;
      JoinNothing(Meant(TraceNode(RootNode(ks), c, stack, None, depth, None, false).events));
    }
  }

  /** Indenting the source of a template and indenting its tree. The text with the indentation before each line is accepted
      unless a limit is hit, and none is that leaves room for its length; it renders like the respelled tree with the
      indentation put in, to the same text and the same failure, for all data and partials and at every depth, but for the
      indentation of a last line that is nothing but changes of delimiters. */
  lemma {:induction false} IndentingTheSource(w: Texts, d: Delims, o: Options, o': Options)
    requires Indentable(w, d, o, o')
    ensures var r, s := Pieces(w.t, d, o).value, Pieces(w.U(), d, o');
            && (s.Err? ==> Limit(s.error)) && (Roomy(|w.U()|, d, o'.limits) ==> s.Ok?)
            && (s.Ok? ==>
                  && AllPlaced(r, w.t) && AllPlaced(s.value, w.U())
                  && var tree := Indent(Respell(TreeOf(r, w.t, w.a), w.indentation), w.indentation, true);
                     forall c: Context, stack: seq<Data>, depth: nat | stack != [] && depth <= NESTING_CEILING ::
                       Meant(TraceNode(TreeOf(s.value, w.U(), w.b), c, stack, None, depth, None, false).events)
                       == Join(Meant(TraceNode(tree, c, stack, None, depth, None, false).events), LastLine(w, r, depth)))
  {
    hide Pieces, Equivalent, IndentAll, EraseAll, Meant, TraceNode, AllPlaced, RespellAll, Respell, Lacking, LastLine;
    hide Indent, Join;
    hide Steady, MarkersPlaced;
    NodesIndented(w, d, o, o');
    if Roomy(|w.U()|, d, o'.limits) {
      NoLimitHit(w.U(), d, o');
    }
    if Pieces(w.U(), d, o').Ok? {
      var r, s := Pieces(w.t, d, o).value, Pieces(w.U(), d, o').value;
      var ks := IndentAll(w.Old(r), w.indentation, true);
      var owed := Owed(w.indentation, Lacking(w, r));
      RootIndents(EraseAll(r, w.t, w.a), w.indentation);
      RootIndents(w.Old(r), w.indentation);
      IndentAllPlaced(w.Old(r), w.indentation, true);
      forall c: Context, stack: seq<Data>, depth: nat | stack != [] && depth <= NESTING_CEILING
        ensures Meant(TraceNode(RootNode(w.New(s)), c, stack, None, depth, None, false).events)
             == Join(Meant(TraceNode(RootNode(ks), c, stack, None, depth, None, false).events), LastLine(w, r, depth))
      {
        RootsMean(w.New(s), ks + owed, c, stack, depth);
        RootWithLast(ks, w, r, c, stack, depth);
      }
    }
  }

  /** For names without line breaks: the indented source renders like the indented tree exactly when the last line is more
      than changes of delimiters, or rendering fails before it. */
  lemma {:induction false} SourceAndTree(w: Texts, d: Delims, o: Options, o': Options, c: Context, stack: seq<Data>, depth: nat)
    requires Indentable(w, d, o, o') && Pieces(w.U(), d, o').Ok? && stack != [] && depth <= NESTING_CEILING
    requires AllPlaced(Pieces(w.t, d, o).value, w.t) && OneLineNames(TreeOf(Pieces(w.t, d, o).value, w.t, w.a))
    ensures AllPlaced(Pieces(w.U(), d, o').value, w.U())
    ensures var r, s := Pieces(w.t, d, o).value, Pieces(w.U(), d, o').value;
            var source := Meant(TraceNode(TreeOf(s, w.U(), w.b), c, stack, None, depth, None, false).events);
            var tree := Meant(TraceNode(Indent(TreeOf(r, w.t, w.a), w.indentation, true), c, stack, None, depth, None, false).events);
            source == tree <==> (!Lacking(w, r) || tree.failure.Some?)
  {
    hide Pieces, EraseAll, Meant, TraceNode, AllPlaced, Respell, Indent, Steady, EndsInChanges, OneLineNames;
    var r := Pieces(w.t, d, o).value;
    IndentingTheSource(w, d, o, o');
    RespellSame(TreeOf(r, w.t, w.a), w.indentation);
    var tree := Meant(TraceNode(Indent(TreeOf(r, w.t, w.a), w.indentation, true), c, stack, None, depth, None, false).events);
    JoinNothing(tree);
    JoinsMore(tree, LastLine(w, r, depth));
  }

  lemma {:induction false} JoinsMore(a: Meaning, b: Meaning)
    ensures b.text != [] || b.failure.Some? ==> (Join(a, b) == a <==> a.failure.Some?)
  {
    assert |a.text + b.text| == |a.text| + |b.text|;
  }

  /** The standalone indentation of the Mustache specification, on source text: a partial tag alone on its line renders what
      comes of tokenizing the partial's source with the tag's indentation before each line, for names without line breaks and
      a last line that is more than changes of delimiters. */
  lemma {:induction false} StandaloneSource(w: Texts, d: Delims, o: Options, o': Options, marker: Node, tag: Node, c: Context,
                                            stack: seq<Data>, depth: nat)
    requires IsMarker(marker) && tag.Node? && tag.kind.TypePartial? && Sound(tag, false) && tag.data.Some?
    requires w.indentation == marker.data.value && Indentable(w, d, o, o') && Pieces(w.U(), d, o').Ok?
    requires stack != [] && depth < NESTING_CEILING && AllPlaced(Pieces(w.t, d, o).value, w.t)
    requires c.env(tag.data.value) == TreeOf(Pieces(w.t, d, o).value, w.t, w.a) && OneLineNames(c.env(tag.data.value))
    requires !Lacking(w, Pieces(w.t, d, o).value)
    ensures var s := Pieces(w.U(), d, o').value;
            && AllPlaced(s, w.U())
            && Meant(TraceChildren([marker, tag], c, stack, None, depth).events)
               == Meant(TraceNode(TreeOf(s, w.U(), w.b), c, stack, None, depth + 1, None, false).events)
  {
    hide Pieces, TraceNode, TraceChildren, Meant, AllPlaced, Indent, Indented, TreeOf, Objection, Lacking, Steady, OneLineNames;
    TemplateLife.TemplateIndents(w.t, d, w.a, o, marker, tag, c, stack, depth);
    SourceAndTree(w, d, o, o', c, stack, depth + 1);
  }
}
