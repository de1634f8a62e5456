/** Tokenizing, one tag at a time: where the next tag is, what it does to the parse, and where the scan goes on. */
module TokenizerSpec {
  import opened Base
  import opened Template
  import opened Strings
  import opened SourceTree

  datatype TokenizerLimits = TokenizerLimits(
    maxInputBytes: nat,
    maxNestingDepth: nat,
    maxNodes: nat,
    maxTagBytes: nat,
    maxDelimiterBytes: nat)

  datatype Options = Options(limits: TokenizerLimits, escapeByDefault: bool, escapeOutput: bool)

  /** A section still open, with the pieces found in it so far; the lowest level is the template itself. */
  datatype Level = Level(head: Head, spelling: Spelling, from: nat, body: nat, items: seq<Item>)

  datatype Parse = Parse(delims: Delims, levels: seq<Level>, count: nat)

  datatype Stepped = Stepped(parse: Parse, next: nat)

  const ROOT_HEAD := Head(TypeRoot, FLAG_NONE, [], None)

  function Initial(delims: Delims): Parse {
    Parse(delims, [Level(ROOT_HEAD, Spelling(delims, false, []), 0, 0, [])], 0)
  }

  function TopLevel(st: Parse): Level
    requires st.levels != []
  {
    st.levels[|st.levels| - 1]
  }

  /** The pieces become the last of the innermost open section. */
  function AddAll(st: Parse, items: seq<Item>): Parse
    requires st.levels != []
  {
    var top := |st.levels| - 1;
    st.(levels := st.levels[top := st.levels[top].(items := st.levels[top].items + items)])
  }

  function Add(st: Parse, item: Item): Parse
    requires st.levels != []
  {
    AddAll(st, [item])
  }

  function AddNode(st: Parse, item: Item, o: Options): (r: Result<Parse>)
    requires st.levels != []
    ensures r.Ok? ==> |r.value.levels| == |st.levels|
  {
    if st.count >= o.limits.maxNodes then Err(ParseNodes) else Ok(Add(st.(count := st.count + 1), item))
  }

  /** A tag that is recognized: text up to `text` is spent, the tag opens at `open`, its closing delimiter is at `close`. */
  datatype Found = Found(text: nat, open: nat, close: nat, spelling: Spelling, head: Head) {
    /** The end of the closing delimiter, the third brace left aside. */
    function Closed(): nat {
      close + |spelling.delims.stop|
    }

    function End(): nat {
      Closed() + if ExtraBrace(spelling, head.change.Some?) then 1 else 0
    }

    predicate Within(tmpl: Bytes) {
      text <= open <= close && Closed() <= |tmpl| && spelling.delims.stop != []
    }
  }

  /** The tag itself: a leaf, a new open section, or the end of one. */
  function AddTag(st: Parse, f: Found, o: Options): (r: Result<Parse>)
    requires st.levels != []
    ensures r.Ok? ==> r.value.levels != []
  {
    var tag := Tag(f.head, f.spelling, f.open, f.End());
    if f.head.change.Some? then Ok(Add(st, tag).(delims := f.head.change.value))
    else if Opens(f.head.kind) then
      if |st.levels| - 1 >= o.limits.maxNestingDepth then Err(ParseNesting)
      else if st.count >= o.limits.maxNodes then Err(ParseNodes)
      else Ok(st.(count := st.count + 1, levels := st.levels + [Level(f.head, f.spelling, f.open, f.End(), [])]))
    else if f.head.kind.TypeStop? then
      if |st.levels| <= 1 then Err(ExtraClosing)
      else if TopLevel(st).head.name != f.head.name then Err(MismatchedClosing)
      else
        var closed := AddNode(st, tag, o);
        if closed.Err? then closed else Ok(CloseBlock(closed.value, f))
    else AddNode(st, tag, o)
  }

  /** The innermost open section becomes a piece of the one around it. */
  function CloseBlock(st: Parse, f: Found): (r: Parse)
    requires |st.levels| > 1
    ensures r.levels != []
  {
    var top := TopLevel(st);
    Add(st.(levels := st.levels[..|st.levels| - 1]),
        Block(top.head, top.spelling, top.from, top.body, f.open, f.End(), top.items))
  }

  /** Alone on its line with nothing but indentation before it: where the next line starts. */
  function Standalone(tmpl: Bytes, f: Found): (r: Option<nat>)
    requires f.Within(tmpl)
    ensures r.Some? ==> f.End() == f.Closed() && f.End() <= r.value <= |tmpl|
  {
    if !f.spelling.triple && (f.head.change.Some? || IsStandaloneType(f.head.kind)) && PrefixIsIndent(tmpl, f.open) then
      LineEnd(tmpl, f.Closed())
    else None
  }

  function MarkerFlags(head: Head): int {
    if head.change.None? && head.kind.TypePartial? then FLAGS_MARKER else FLAG_LAMBDA_ONLY
  }

  /** The text before the tag; in front of a standalone tag its indentation is set apart. */
  function AddBefore(tmpl: Bytes, st: Parse, f: Found, lineEnd: Option<nat>, o: Options): (r: Result<Parse>)
    requires st.levels != [] && f.Within(tmpl)
    requires lineEnd.Some? ==> f.text <= LineStart(tmpl, f.open)
    ensures r.Ok? ==> r.value.levels != []
  {
    var cut := if lineEnd.Some? then LineStart(tmpl, f.open) else f.open;
    var published := if cut > f.text then AddNode(st, Literal(FLAG_NONE, false, f.text, cut), o) else Ok(st);
    if published.Err? || lineEnd.None? then published
    else AddNode(published.value, Literal(MarkerFlags(f.head), false, cut, f.open), o)
  }

  /** The rest of a standalone line. */
  function AddAfter(st: Parse, f: Found, lineEnd: Option<nat>, o: Options): (r: Result<Parse>)
    requires st.levels != []
    ensures r.Ok? ==> r.value.levels != []
  {
    if lineEnd.Some? && lineEnd.value > f.End() then AddNode(st, Literal(FLAG_LAMBDA_ONLY, false, f.End(), lineEnd.value), o)
    else Ok(st)
  }

  /** Everything one closed tag does. */
  function TagStep(tmpl: Bytes, st: Parse, f: Found, o: Options): (r: Result<Stepped>)
    requires st.levels != [] && f.Within(tmpl)
    ensures r.Ok? ==> r.value.parse.levels != [] && f.close < r.value.next <= |tmpl|
  {
    var lineEnd := Standalone(tmpl, f);
    if lineEnd.Some? && LineStart(tmpl, f.open) < f.text then Err(StandaloneState)
    else
      var before :- AddBefore(tmpl, st, f, lineEnd, o);
      var tagged :- AddTag(before, f, o);
      var after :- AddAfter(tagged, f, lineEnd, o);
      if ExtraBrace(f.spelling, f.head.change.Some?) && !MatchesAt(tmpl, f.Closed(), CLOSING_BRACE) then Err(MissingBrace)
      else Ok(Stepped(after, if lineEnd.Some? then lineEnd.value else f.End()))
  }

  /** The delimiters of every parse state are non-empty. */
  predicate Usable(d: Delims) {
    d.start != [] && d.stop != []
  }

  /** The parse of the template from `text` on. */
  function ParseFrom(tmpl: Bytes, text: nat, st: Parse, o: Options): (r: Result<Parse>)
    requires st.levels != [] && text <= |tmpl| && Usable(st.delims)
    ensures r.Ok? ==> |r.value.levels| == 1
    decreases |tmpl| - text, 1
  {
    var open := FindAt(tmpl, text, st.delims.start);
    if open.Some? then ParseTag(tmpl, text, open.value, st, o)
    else if |st.levels| > 1 then Err(UnclosedSection)
    else if text < |tmpl| then AddNode(st, Literal(FLAG_NONE, o.escapeOutput, text, |tmpl|), o)
    else Ok(st)
  }

  predicate IsTriple(tmpl: Bytes, open: nat, start: Bytes) {
    start == OPEN && MatchesAt(tmpl, open + 2, BRACE)
  }

  /** Where the content of a tag starts. */
  function Inside(tmpl: Bytes, open: nat, start: Bytes): (r: nat)
    requires MatchesAt(tmpl, open, start)
    ensures open + |start| <= r <= |tmpl|
  {
    open + |start| + if IsTriple(tmpl, open, start) then 1 else 0
  }

  /** The tag that opens at `open`, and the parse after it. */
  function ParseTag(tmpl: Bytes, text: nat, open: nat, st: Parse, o: Options): (r: Result<Parse>)
    requires st.levels != [] && text <= open && MatchesAt(tmpl, open, st.delims.start) && Usable(st.delims)
    ensures r.Ok? ==> |r.value.levels| == 1
    decreases |tmpl| - text, 0
  {
    var inside := Inside(tmpl, open, st.delims.start);
    var close := FindAt(tmpl, inside, st.delims.stop);
    if (if close.Some? then close.value else |tmpl|) - inside > o.limits.maxTagBytes then Err(TagSize)
    else if close.None? then Err(UnclosedTag)
    else
      var found :- FindTag(tmpl, text, open, close.value, st.delims, o);
      var stepped :- TagStep(tmpl, st, found, o);
      UsableAfter(tmpl, st, found, o);
      ParseFrom(tmpl, stepped.next, stepped.parse, o)
  }

  function FindTag(tmpl: Bytes, text: nat, open: nat, close: nat, delims: Delims, o: Options): (r: Result<Found>)
    requires text <= open && MatchesAt(tmpl, open, delims.start) && Usable(delims)
    requires Inside(tmpl, open, delims.start) <= close && MatchesAt(tmpl, close, delims.stop)
    ensures r.Ok? ==> r.value.Within(tmpl) && r.value.text == text && r.value.open == open && r.value.close == close
                      && r.value.spelling == Spelling(delims, IsTriple(tmpl, open, delims.start),
                                                      tmpl[Inside(tmpl, open, delims.start)..close])
                      && (r.value.head.change.Some? ==> Usable(r.value.head.change.value))
  {
    var spelling := Spelling(delims, IsTriple(tmpl, open, delims.start), tmpl[Inside(tmpl, open, delims.start)..close]);
    var head :- Classify(spelling.raw, spelling.triple, o.escapeByDefault, o.limits.maxDelimiterBytes);
    ChangeUsable(spelling.raw, spelling.triple, o.escapeByDefault, o.limits.maxDelimiterBytes);
    Ok(Found(text, open, close, spelling, head))
  }

  lemma {:induction false} ChangeUsable(raw: Bytes, triple: bool, escapeByDefault: bool, maxDelimiterBytes: nat)
    ensures var r := Classify(raw, triple, escapeByDefault, maxDelimiterBytes);
            r.Ok? && r.value.change.Some? ==>
              IsWord(r.value.change.value.start, WHITESPACE) && IsWord(r.value.change.value.stop, WHITESPACE)
              && |r.value.change.value.start| <= maxDelimiterBytes && |r.value.change.value.stop| <= maxDelimiterBytes
  {
    hide Words, Trim, IsWord;
    var text := Trim(raw, WHITESPACE);
    if text != [] {
      var inner := Trim(text, WHITESPACE + [EQUALS]);
      var words := Words(inner, WHITESPACE, 0);
      WordsConserve(inner, WHITESPACE, 0);
      if |words| == 2 {
        assert AreWords(words[1..], WHITESPACE) && words[1..][0] == words[1];
      }
    }
  }

  lemma {:induction false} UsableAfter(tmpl: Bytes, st: Parse, f: Found, o: Options)
    requires st.levels != [] && f.Within(tmpl) && Usable(st.delims)
    requires f.head.change.Some? ==> Usable(f.head.change.value)
    ensures var r := TagStep(tmpl, st, f, o); r.Ok? ==> Usable(r.value.parse.delims)
  {
  }

  /** The pieces of a template, or the reason it is refused. */
  function Pieces(tmpl: Bytes, delims: Delims, o: Options): Result<seq<Item>>
    requires Usable(delims)
  {
    if |tmpl| > o.limits.maxInputBytes then Err(InputSize)
    else if |delims.start| > o.limits.maxDelimiterBytes || |delims.stop| > o.limits.maxDelimiterBytes then Err(DelimiterSize)
    else
      var parsed :- ParseFrom(tmpl, 0, Initial(delims), o);
      Ok(parsed.levels[0].items)
  }
}
