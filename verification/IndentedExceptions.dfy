/** Templates for which indenting the source and indenting the tree part: a line break inside the name of a variable, and a
    last line of nothing but changes of delimiters. */
module IndentedExceptions {
  import opened Base
  import opened Template
  import opened RenderTrace
  import opened Strings
  import opened SourceTree
  import opened TokenizerSpec
  import opened TokenizerRoom
  import opened Tiling
  import opened TokenizerTheorems
  import opened TokenizerResults
  import opened Indentation
  import opened IndentedText
  import opened IndentedSource
  import opened IndentedParse
  import opened IndentedTemplates
  import opened SameMeaning

  // ---- Reading a tag that is a piece of its own -------------------------------------------------------------------

  /** The first occurrence of a word, if its first byte does not occur before. */
  lemma {:induction false} FirstFound(tmpl: Bytes, from: nat, at: nat, w: Bytes)
    requires w != [] && from <= at <= |tmpl| && MatchesAt(tmpl, at, w) && forall i :: from <= i < at ==> tmpl[i] != w[0]
    ensures FindAt(tmpl, from, w) == Some(at)
  {
    hide FindAt;
    forall i | from <= i < at
      ensures !MatchesAt(tmpl, i, w)
    {
      WordStarts(tmpl, i, w);
    }
  }

  lemma {:induction false} WordStarts(tmpl: Bytes, i: nat, w: Bytes)
    requires w != [] && i < |tmpl|
    ensures MatchesAt(tmpl, i, w) ==> tmpl[i] == w[0]
  {
    assert MatchesAt(tmpl, i, w) ==> tmpl[i..i + |w|][0] == tmpl[i];
  }

  /** A variable or a change of delimiters that is not alone on its line. */
  lemma {:induction false} LoneTag(tmpl: Bytes, text: nat, open: nat, close: nat, st: Parse, f: Found, o: Options)
    returns (after: Parse)
    requires st.levels != [] && text <= open <= close <= |tmpl| && Usable(st.delims) && |st.levels| == 1
    requires FindAt(tmpl, text, st.delims.start) == Some(open) && !IsTriple(tmpl, open, st.delims.start)
    requires FindAt(tmpl, open + |st.delims.start|, st.delims.stop) == Some(close)
    requires FindTag(tmpl, text, open, close, st.delims, o) == Ok(f) && f.head.kind.TypeVariable? && Standalone(tmpl, f).None?
    requires st.count + 1 < o.limits.maxNodes && |tmpl| <= o.limits.maxTagBytes
    ensures after.levels == AddAll(st, TextItems(text, open, false) + [Tag(f.head, f.spelling, open, f.Closed())]).levels
    ensures after.delims == (if f.head.change.Some? then f.head.change.value else st.delims) && after.count <= st.count + 2
    ensures f.Closed() <= |tmpl| && Usable(after.delims)
    ensures ParseFrom(tmpl, text, st, o) == ParseFrom(tmpl, f.Closed(), after, o)
  {
    hide FindAt, FindTag, Standalone;
    UsableAfter(tmpl, st, f, o);
    AddNone(st);
    after := TagStep(tmpl, st, f, o).value.parse;
    AddTwice(st, TextItems(text, open, false), [Tag(f.head, f.spelling, open, f.Closed())]);
  }

  // ---- A line break inside a name -----------------------------------------------------------------------------------

  /** The name of a variable, as it can stand between the delimiters. */
  predicate Nameable(name: Bytes) {
    && name != [] && name[0] !in WHITESPACE && name[|name| - 1] !in WHITESPACE && BRACE[0] !in name && CLOSING_BRACE[0] !in name
    && name[0] != EQUALS && KindOf(name[0]).TypeVariable? && name[0] != '&' as int
  }

  function VariableHead(name: Bytes, o: Options): Head {
    Head(TypeVariable, EscapeFlag(false, false, o.escapeByDefault), name, None)
  }

  /** A template of one variable. */
  function VariableText(name: Bytes): Bytes {
    OPEN + name + CLOSE
  }

  lemma {:induction false} VariableContent(name: Bytes, o: Options)
    requires Nameable(name)
    ensures Classify(name, false, o.escapeByDefault, o.limits.maxDelimiterBytes) == Ok(VariableHead(name, o))
  {
    hide Trim;
    assert [] + name + [] == name;
    TrimIs([], name, [], WHITESPACE);
  }

  lemma {:induction false} VariableParts(name: Bytes)
    requires Nameable(name)
    ensures var t := VariableText(name);
            && |t| == |name| + 4 && t[2..2 + |name|] == name
            && FindAt(t, 0, OPEN) == Some(0) && !IsTriple(t, 0, OPEN) && FindAt(t, 2, CLOSE) == Some(2 + |name|)
  {
    hide FindAt;
    var t := VariableText(name);
    assert t[0..2] == OPEN && t[2 + |name|..4 + |name|] == CLOSE;
    FirstFound(t, 0, 0, OPEN);
    assert t[2] == name[0] && name[0] in name;
    WordStarts(t, 2, BRACE);
    forall i | 2 <= i < 2 + |name|
      ensures t[i] != CLOSE[0]
    {
      assert t[i] == name[i - 2] && name[i - 2] in name;
    }
    FirstFound(t, 2, 2 + |name|, CLOSE);
  }

  lemma {:induction false} VariablePieces(name: Bytes, o: Options)
    requires Nameable(name) && Roomy(|VariableText(name)|, DEFAULT, o.limits)
    ensures Pieces(VariableText(name), DEFAULT, o)
         == Ok([Tag(VariableHead(name, o), Spelling(DEFAULT, false, name), 0, |VariableText(name)|)])
  {
    hide FindAt, Classify, IsTriple, VariableText, ParseFrom, Nameable, EscapeFlag;
    var t := VariableText(name);
    VariableParts(name);
    VariableContent(name, o);
    var f := Found(0, 0, 2 + |name|, Spelling(DEFAULT, false, name), VariableHead(name, o));
    assert FindTag(t, 0, 0, 2 + |name|, DEFAULT, o) == Ok(f);
    var after := LoneTag(t, 0, 0, 2 + |name|, Initial(DEFAULT), f, o);
    NothingLeft(t, after, o);
    assert [] + ([] + [TagItem(f)]) == [TagItem(f)];
  }

  lemma {:induction false} NothingLeft(tmpl: Bytes, st: Parse, o: Options)
    requires |st.levels| == 1 && Usable(st.delims)
    ensures ParseFrom(tmpl, |tmpl|, st, o) == Ok(st)
  {
    hide FindAt;
    assert !MatchesAt(tmpl, |tmpl|, st.delims.start);
  }

  lemma {:induction false} DefaultSteady()
    ensures SteadyDelims(DEFAULT) && Usable(DEFAULT)
  {
  }

  lemma {:induction false} SpreadGrows(s: Bytes, indentation: Bytes)
    requires indentation != []
    ensures |Spread(s, indentation)| >= |s| && (NEWLINE in s ==> |Spread(s, indentation)| > |s|)
  {
    if s != [] {
      assert s == [s[0]] + s[1..];
      SpreadGrows(s[1..], indentation);
    }
  }

  // ---- What the two trees render -------------------------------------------------------------------------------------

  /** What a variable renders when the only context has one text for one name. */
  lemma {:induction false} VariableTogether(flags: int, name: Bytes, c: Context, key: Bytes, text: Bytes)
    requires (flags == FLAG_NONE || flags == FLAG_ESCAPE) && c.strict && name != [DOT] && text != []
    ensures Together([Leaf(TypeVariable, flags, name)], c, [Object(map[key := Text(text)])], 1)
         == Meaning(Value(flags, name, key, text), None)
  {
    hide Together, TraceNode, Meant;
    var n, stack, value := Leaf(TypeVariable, flags, name), [Object(map[key := Text(text)])], Value(flags, name, key, text);
    OneTogether(n, c, stack, 1);
    NodeMeant(n, c, stack, None, 1, None, false);
    NoText([], true);
    NoTag();
    OutMeant(value);
    assert [] + [Out(value)] == [Out(value)];
    assert Lookup(n, stack, true) == if name == key then Some(Text(text)) else None;
  }

  function Value(flags: int, name: Bytes, key: Bytes, text: Bytes): Bytes {
    if name != key then [] else if flags == FLAG_ESCAPE then RenderTrace.Escaped(text) else text
  }

  lemma {:induction false} TextThenVariable(indentation: Bytes, flags: int, name: Bytes, c: Context, key: Bytes, text: Bytes)
    requires (flags == FLAG_NONE || flags == FLAG_ESCAPE) && c.strict && name != [DOT] && text != []
    ensures Together(Owed(indentation, true) + [Leaf(TypeVariable, flags, name)], c, [Object(map[key := Text(text)])], 1)
         == Meaning(indentation + Value(flags, name, key, text), None)
  {
    hide Together;
    var stack := [Object(map[key := Text(text)])];
    VariableTogether(flags, name, c, key, text);
    TextTogether(indentation, c, stack, 1);
    OwedPlaced(indentation, true);
    TogetherConcat(Owed(indentation, true), [Leaf(TypeVariable, flags, name)], c, stack, 1);
  }

  /** A line break inside the name of a variable: the indented source has a variable of another name, and renders the indentation
      alone where the indented tree renders the value too. */
  lemma {:induction false} BrokenName(name: Bytes, indentation: Bytes, o: Options, o': Options, a: nat, b: nat, c: Context,
                                      text: Bytes)
    requires Nameable(name) && NEWLINE in name && IsIndentation(indentation) && indentation != [] && text != [] && c.strict
    requires o'.escapeByDefault == o.escapeByDefault && o'.escapeOutput == o.escapeOutput
    requires Roomy(|VariableText(name)|, DEFAULT, o.limits)
    requires Roomy(|Indented(VariableText(name), indentation)|, DEFAULT, o'.limits)
    ensures var w, stack := Texts(VariableText(name), indentation, a, b), [Object(map[name := Text(text)])];
            var r, s := Pieces(w.t, DEFAULT, o), Pieces(w.U(), DEFAULT, o');
            && r.Ok? && s.Ok? && AllPlaced(r.value, w.t) && AllPlaced(s.value, w.U())
            && Meant(TraceNode(TreeOf(s.value, w.U(), b), c, stack, None, 0, None, false).events) == Meaning(indentation, None)
            && |Meant(TraceNode(Indent(TreeOf(r.value, w.t, a), indentation, true), c, stack, None, 0, None, false).events).text|
               > |indentation|
  {
    hide Pieces, TraceNode, Meant, IndentAll, Together, EraseAll, Nameable, VariableText, Indent, Spread, Respell, Steady;
    var w, stack := Texts(VariableText(name), indentation, a, b), [Object(map[name := Text(text)])];
    VariablePieces(name, o);
    DefaultSteady();
    IndentingTheSource(w, DEFAULT, o, o');
    var wide, flags := Spread(name, indentation), EscapeFlag(false, false, o.escapeByDefault);
    SpreadGrows(name, indentation);
    var tag := Pieces(w.t, DEFAULT, o).value[0];
    assert Pieces(w.t, DEFAULT, o).value == [tag];
    OneOld(tag, w);
    OneErased(tag, w.t, a);
    RespellLeaf(flags, name, indentation);
    IndentedVariable(indentation, flags, name, c, name, text);
    IndentedVariable(indentation, flags, wide, c, name, text);
    RootIndents([Leaf(TypeVariable, flags, name)], indentation);
    RootIndents([Leaf(TypeVariable, flags, wide)], indentation);
    JoinNothing(Meaning(indentation, None));
    assert |Value(flags, name, name, text)| > 0;
  }

  lemma {:induction false} RespellLeaf(flags: int, name: Bytes, indentation: Bytes)
    ensures RespellAll([Leaf(TypeVariable, flags, name)], indentation) == [Leaf(TypeVariable, flags, Spread(name, indentation))]
  {
    RespellOne(Leaf(TypeVariable, flags, name), indentation);
  }

  lemma {:induction false} IndentedVariable(indentation: Bytes, flags: int, name: Bytes, c: Context, key: Bytes, text: Bytes)
    requires (flags == FLAG_NONE || flags == FLAG_ESCAPE) && c.strict && name != [DOT] && text != []
    ensures var tree := RootNode(IndentAll([Leaf(TypeVariable, flags, name)], indentation, true));
            Meant(TraceNode(tree, c, [Object(map[key := Text(text)])], None, 0, None, false).events)
            == Meaning(indentation + Value(flags, name, key, text), None)
  {
    hide TraceNode, Meant, IndentAll, Together;
    LeafUnmarked(Head(TypeVariable, flags, name, None));
    LeafIndents(Leaf(TypeVariable, flags, name), indentation, true);
    TextThenVariable(indentation, flags, name, c, key, text);
    RootTogether(Owed(indentation, true) + [Leaf(TypeVariable, flags, name)], c, [Object(map[key := Text(text)])], 0);
  }

  // ---- A line of nothing but changes of delimiters --------------------------------------------------------------------

  const A: byte := 'a' as int
  const B: byte := 'b' as int

  /** The content of a tag that changes the delimiters to single bytes. */
  function ChangeContent(x: byte, y: byte): Bytes {
    [EQUALS, x, SPACE, y, EQUALS]
  }

  function ChangeHead(x: byte, y: byte): Head {
    Head(TypeVariable, FLAG_NONE, [], Some(Delims([x], [y])))
  }

  lemma {:induction false} ChangeMeaning(x: byte, y: byte, o: Options)
    requires x !in WHITESPACE && y !in WHITESPACE && x != EQUALS && y != EQUALS && o.limits.maxDelimiterBytes >= 1
    ensures Classify(ChangeContent(x, y), false, o.escapeByDefault, o.limits.maxDelimiterBytes) == Ok(ChangeHead(x, y))
  {
    hide Trim, Words;
    var raw, core, all := ChangeContent(x, y), [x, SPACE, y], WHITESPACE + [EQUALS];
    assert [] + raw + [] == raw && EQUALS !in WHITESPACE;
    TrimIs([], raw, [], WHITESPACE);
    TrimEquals(raw, core, x, y);
    TwoWords(x, y);
  }

  lemma {:induction false} TrimEquals(raw: Bytes, core: Bytes, x: byte, y: byte)
    requires x !in WHITESPACE && y !in WHITESPACE && x != EQUALS && y != EQUALS
    requires raw == ChangeContent(x, y) && core == [x, SPACE, y]
    ensures Trim(raw, WHITESPACE + [EQUALS]) == core
  {
    var all := WHITESPACE + [EQUALS];
    assert EQUALS in all && x !in all && y !in all;
    assert raw[..4] == [EQUALS, x, SPACE, y] && raw[..4][1..] == core;
    assert TrimRight(raw[..4], all) == raw[..4];
    assert TrimRight(raw, all) == raw[..4];
    assert TrimLeft(core, all) == core;
  }

  lemma {:induction false} TwoWords(x: byte, y: byte)
    requires x !in WHITESPACE && y !in WHITESPACE
    ensures Words([x, SPACE, y], WHITESPACE, 0) == [[x], [y]]
  {
    var s := [x, SPACE, y];
    assert SPACE in WHITESPACE by {
      assert WHITESPACE[0] == SPACE;
    }
    assert Scan(s, WHITESPACE, 0, false) == 0 && Scan(s, WHITESPACE, 1, true) == 1 && Scan(s, WHITESPACE, 0, true) == 1;
    assert Scan(s, WHITESPACE, 2, false) == 2 && Scan(s, WHITESPACE, 1, false) == 2;
    assert Scan(s, WHITESPACE, 3, true) == 3 && Scan(s, WHITESPACE, 2, true) == 3 && Scan(s, WHITESPACE, 3, false) == 3;
    assert s[0..1] == [x] && s[2..3] == [y];
    assert Words(s, WHITESPACE, 3) == [];
    assert Words(s, WHITESPACE, 1) == [[y]];
  }

  /** Two changes of delimiters on one line: to single letters and back to others. */
  const TWO_CHANGES: Bytes := OPEN + ChangeContent(A, B) + CLOSE + [A] + ChangeContent('c' as int, 'd' as int) + [B]

  lemma {:induction false} ChangeParts()
    ensures var t := TWO_CHANGES;
            && |t| == 16 && t[2..7] == ChangeContent(A, B) && t[10..15] == ChangeContent('c' as int, 'd' as int)
            && FindAt(t, 0, OPEN) == Some(0) && !IsTriple(t, 0, OPEN) && FindAt(t, 2, CLOSE) == Some(7)
            && FindAt(t, 9, [A]) == Some(9) && FindAt(t, 10, [B]) == Some(15) && !IsTriple(t, 9, [A])
            && LineEnd(t, 9).None? && !PrefixIsIndent(t, 9) && AtStart(t, 0) && !AtStart(t, |t|)
  {
    hide FindAt, LineStart;
    var t := TWO_CHANGES;
    assert t[0..2] == OPEN && t[7..9] == CLOSE && t[9..10] == [A] && t[15..16] == [B];
    FirstFound(t, 0, 0, OPEN);
    WordStarts(t, 2, BRACE);
    FirstFound(t, 2, 7, CLOSE);
    FirstFound(t, 9, 9, [A]);
    FirstFound(t, 10, 15, [B]);
    assert |[A]| != |OPEN| && t[9] == A;
    LineIs(t, 9, 0);
    assert t[0..9][0] == t[0] == OPEN[0];
  }

  lemma {:induction false} ChangePieces(o: Options) returns (first: Item, second: Item)
    requires Roomy(|TWO_CHANGES|, DEFAULT, o.limits)
    ensures first.Tag? && first.head.change.Some? && second.Tag? && second.head.change.Some?
    ensures Pieces(TWO_CHANGES, DEFAULT, o) == Ok([first, second])
  {
    hide FindAt, Classify, IsTriple, TWO_CHANGES, ParseFrom, ChangeContent, LineEnd, PrefixIsIndent;
    var t := TWO_CHANGES;
    ChangeParts();
    ChangeMeaning(A, B, o);
    ChangeMeaning('c' as int, 'd' as int, o);
    var f := Found(0, 0, 7, Spelling(DEFAULT, false, ChangeContent(A, B)), ChangeHead(A, B));
    assert FindTag(t, 0, 0, 7, DEFAULT, o) == Ok(f);
    var st := LoneTag(t, 0, 0, 7, Initial(DEFAULT), f, o);
    var d := Delims([A], [B]);
    var g := Found(9, 9, 15, Spelling(d, false, ChangeContent('c' as int, 'd' as int)), ChangeHead('c' as int, 'd' as int));
    assert FindTag(t, 9, 9, 15, d, o) == Ok(g);
    var after := LoneTag(t, 9, 9, 15, st, g, o);
    NothingLeft(t, after, o);
    first, second := TagItem(f), TagItem(g);
    assert ([] + ([] + [first])) + ([] + [second]) == [first, second];
  }

  /** On a last line of nothing but changes of delimiters, the indentation is text in the indented source; the tree has nothing
      there to indent. */
  lemma {:induction false} BrokenChange(indentation: Bytes, o: Options, o': Options, a: nat, b: nat, c: Context,
                                        stack: seq<Data>)
    requires IsIndentation(indentation) && indentation != [] && stack != []
    requires o'.escapeByDefault == o.escapeByDefault && o'.escapeOutput == o.escapeOutput
    requires Roomy(|TWO_CHANGES|, DEFAULT, o.limits) && Roomy(|Indented(TWO_CHANGES, indentation)|, DEFAULT, o'.limits)
    ensures var w := Texts(TWO_CHANGES, indentation, a, b);
            var r, s := Pieces(w.t, DEFAULT, o), Pieces(w.U(), DEFAULT, o');
            && r.Ok? && s.Ok? && AllPlaced(r.value, w.t) && AllPlaced(s.value, w.U())
            && Meant(TraceNode(TreeOf(s.value, w.U(), b), c, stack, None, 0, None, false).events) == Meaning(indentation, None)
            && Meant(TraceNode(Indent(TreeOf(r.value, w.t, a), indentation, true), c, stack, None, 0, None, false).events)
               == Meaning([], None)
  {
    hide Pieces, TraceNode, Meant, IndentAll, Together, EraseAll, TWO_CHANGES, Indent, FindAt, LineEnd, PrefixIsIndent;
    hide Steady, EndsInChanges;
    var w := Texts(TWO_CHANGES, indentation, a, b);
    ChangeParts();
    var x, y := ChangePieces(o);
    BothChanges(x, y, w.t);
    DefaultSteady();
    IndentingTheSource(w, DEFAULT, o, o');
    TwoErased(x, y, w.t, a);
    RootIndents([], indentation);
    RespellNothing(indentation);
    NothingIndented(indentation, true);
    RootTogether([], c, stack, 0);
    NoTogether(c, stack);
    JoinNothing(Meaning(indentation, None));
  }

  lemma {:induction false} BothChanges(x: Item, y: Item, t: Bytes)
    requires x.Tag? && x.head.change.Some? && y.Tag? && y.head.change.Some?
    ensures EndsInChanges([x, y], t)
  {
    assert [x, y][..1] == [x] && [x][..0] == [];
    assert EndsInChanges([x], t);
  }

  lemma {:induction false} NoTogether(c: Context, stack: seq<Data>)
    requires stack != []
    ensures Together([], c, stack, 1) == Meaning([], None)
  {
  }
}
