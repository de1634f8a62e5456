/** The tokenizer: one scan over the template, byte by byte, with an explicit stack of open sections. */
module Tokenizer {
  import opened Base
  import opened Template
  import opened RenderTrace
  import opened Strings
  import opened SourceTree
  import opened TokenizerSpec
  import opened Tiling
  import opened TokenizerTheorems
  import opened TokenizerResults

  /** An open section: its node with the children so far, and where its source begins. */
  datatype ParseFrame = ParseFrame(node: Node, sectionBegin: nat)

  datatype Work = Work(nodeStack: seq<ParseFrame>, nodeCount: nat)

  // ---- The stack of nodes and the levels of the parse -------------------------------------------------

  function FrameOf(level: Level, tmpl: Bytes, source: nat): ParseFrame
    requires AllPlaced(level.items, tmpl)
  {
    var children := EraseAll(level.items, tmpl, source);
    if level.head.kind.TypeRoot? then ParseFrame(RootNode(children), 0)
    else
      ParseFrame(BlockNode(level.head, level.spelling.delims, children, None), if level.head.kind.TypeSection? then level.body else 0)
  }

  /** The nodes under construction are the pieces found so far. */
  ghost predicate Mirror(w: Work, st: Parse, tmpl: Bytes, source: nat) {
    w.nodeCount == st.count && |w.nodeStack| == |st.levels| > 0
    && forall k :: 0 <= k < |st.levels| ==>
         AllPlaced(st.levels[k].items, tmpl) && w.nodeStack[k] == FrameOf(st.levels[k], tmpl, source)
  }

  /** The scan fails where the parse does, with the same error, and builds what the parse finds. */
  ghost predicate Follows(r: Result<Work>, spec: Result<Parse>, tmpl: Bytes, source: nat) {
    match spec
    case Err(e) => r == Err(e)
    case Ok(st) => r.Ok? && Mirror(r.value, st, tmpl, source)
  }

  function WithChild(n: Node, child: Node): Node
    requires n.Node?
  {
    n.(children := n.children + [child])
  }

  lemma {:induction false} MirrorTop(w: Work, st: Parse, tmpl: Bytes, source: nat)
    requires Mirror(w, st, tmpl, source)
    ensures |w.nodeStack| == |st.levels| > 0 && w.nodeCount == st.count && AllPlaced(TopLevel(st).items, tmpl)
    ensures w.nodeStack[|w.nodeStack| - 1] == FrameOf(TopLevel(st), tmpl, source)
    ensures forall k :: 0 <= k < |w.nodeStack| ==> w.nodeStack[k].node.Node?
  {
  }

  lemma {:induction false} MirrorAdd(w: Work, st: Parse, item: Item, tmpl: Bytes, source: nat)
    requires Mirror(w, st, tmpl, source) && Placed(item, tmpl)
    ensures var erased, last := Erase(item, tmpl, source), |w.nodeStack| - 1;
            && (erased == [] ==> Mirror(w, Add(st, item), tmpl, source))
            && (|erased| == 1 ==>
                  w.nodeStack[last].node.Node?
                  && var frame := w.nodeStack[last].(node := WithChild(w.nodeStack[last].node, erased[0]));
                     Mirror(Work(w.nodeStack[last := frame], w.nodeCount), Add(st, item), tmpl, source))
  {
    hide Erase, Placed;
    var top, erased := TopLevel(st), Erase(item, tmpl, source);
    EraseSnoc(top.items, item, tmpl, source);
    assert EraseAll(top.items, tmpl, source) + [] == EraseAll(top.items, tmpl, source);
    if |erased| == 1 {
      assert erased == [erased[0]];
    }
  }

  /** `appendNode`. */
  method AppendNode(w: Work, node: Node, limits: TokenizerLimits) returns (r: Result<Work>)
    requires w.nodeStack != [] && w.nodeStack[|w.nodeStack| - 1].node.Node?
    ensures r == if w.nodeCount >= limits.maxNodes then Err(ParseNodes)
                 else
                   var last := |w.nodeStack| - 1;
                   var frame := w.nodeStack[last].(node := WithChild(w.nodeStack[last].node, node));
                   Ok(Work(w.nodeStack[last := frame], w.nodeCount + 1))
  {
    if w.nodeCount >= limits.maxNodes {
      return Err(ParseNodes);
    }
    var last := |w.nodeStack| - 1;
    var parent := w.nodeStack[last].node;
    return Ok(Work(w.nodeStack[last := w.nodeStack[last].(node := WithChild(parent, node))], w.nodeCount + 1));
  }

  /** Appending the node of one piece. */
  method AppendItem(w: Work, node: Node, o: Options, tmpl: Bytes, source: nat, ghost st: Parse, ghost item: Item)
    returns (r: Result<Work>)
    requires Mirror(w, st, tmpl, source) && Placed(item, tmpl) && Erase(item, tmpl, source) == [node]
    ensures Follows(r, AddNode(st, item, o), tmpl, source)
  {
    hide Erase, Mirror, Placed;
    MirrorTop(w, st, tmpl, source);
    MirrorAdd(w, st, item, tmpl, source);
    r := AppendNode(w, node, o.limits);
    if r.Ok? {
      MirrorCount(Work(r.value.nodeStack, w.nodeCount), Add(st, item), tmpl, source);
    }
  }

  lemma {:induction false} MirrorCount(w: Work, st: Parse, tmpl: Bytes, source: nat)
    requires Mirror(w, st, tmpl, source)
    ensures Mirror(w.(nodeCount := w.nodeCount + 1), st.(count := st.count + 1), tmpl, source)
  {
  }

  // ---- The scan and the parse ---------------------------------------------------------------------------

  /** The line state belongs to the byte before `pos`. */
  ghost predicate LineTracked(tmpl: Bytes, pos: nat, lineStart: nat, indent: bool) {
    pos <= |tmpl|
    && if pos == 0 then lineStart == 0 && indent
       else lineStart == LineStart(tmpl, pos - 1) && indent == PrefixIsIndent(tmpl, pos - 1)
  }

  /** One more byte of the line: the incremental line state is the declarative one. */
  lemma {:induction false} LineAdvance(tmpl: Bytes, pos: nat, lineStart: nat, indent: bool)
    requires pos < |tmpl| && LineTracked(tmpl, pos, lineStart, indent)
    ensures LineStart(tmpl, pos) == if pos > 0 && tmpl[pos - 1] == NEWLINE then pos else lineStart
    ensures PrefixIsIndent(tmpl, pos)
         == if pos == 0 || tmpl[pos - 1] == NEWLINE then true else indent && IsIndentByte(tmpl[pos - 1])
    ensures LineTracked(tmpl, pos + 1, LineStart(tmpl, pos), PrefixIsIndent(tmpl, pos))
  {
    if pos > 0 && tmpl[pos - 1] != NEWLINE {
      var before, last := tmpl[lineStart..pos - 1], tmpl[pos - 1];
      assert tmpl[lineStart..pos] == before + [last];
      assert IsIndentation(before + [last]) <==> IsIndentation(before) && IsIndentByte(last) by {
        if IsIndentation(before + [last]) {
          assert (before + [last])[|before|] == last;
          assert forall i :: 0 <= i < |before| ==> before[i] == (before + [last])[i];
        }
      }
    } else {
      assert tmpl[pos..pos] == [];
    }
  }

  ghost predicate NoMatch(tmpl: Bytes, from: nat, to: nat, sequence: Bytes) {
    forall i :: from <= i < to ==> !MatchesAt(tmpl, i, sequence)
  }

  ghost predicate InsideTag(tmpl: Bytes, text: nat, tagStart: nat, base: nat, start: Bytes, triple: bool) {
    text <= tagStart && start != [] && MatchesAt(tmpl, tagStart, start) && base == Inside(tmpl, tagStart, start)
    && triple == IsTriple(tmpl, tagStart, start)
  }

  /** What the open tag will do is the outcome of the whole parse. */
  ghost predicate PendingTag(tmpl: Bytes, text: nat, tagStart: nat, st: Parse, o: Options, whole: Result<Parse>) {
    st.levels != [] && text <= tagStart && Usable(st.delims) && MatchesAt(tmpl, tagStart, st.delims.start)
    && ParseTag(tmpl, text, tagStart, st, o) == whole
  }

  lemma {:induction false} ScanStarts(tmpl: Bytes, start: Bytes)
    ensures LineTracked(tmpl, 0, 0, true) && NoMatch(tmpl, 0, 0, start)
  {
  }

  lemma {:induction false} MirrorInitial(delims: Delims, tmpl: Bytes, source: nat)
    ensures Mirror(Work([ParseFrame(RootNode([]), 0)], 0), Initial(delims), tmpl, source)
  {
  }

  lemma {:induction false} NothingSkipped(tmpl: Bytes, base: nat, pos: nat, sequence: Bytes)
    requires pos < base
    ensures NoMatch(tmpl, base, pos + 1, sequence)
  {
  }

  /** Comparing the first byte first changes nothing. */
  lemma {:induction false} StartsHere(tmpl: Bytes, pos: nat, sequence: Bytes)
    requires sequence != [] && pos < |tmpl|
    ensures MatchesAt(tmpl, pos, sequence) ==> tmpl[pos] == sequence[0]
  {
    if MatchesAt(tmpl, pos, sequence) {
      assert tmpl[pos] == tmpl[pos..pos + |sequence|][0];
    }
  }

  lemma {:induction false} OneMore(tmpl: Bytes, base: nat, pos: nat, sequence: Bytes)
    requires NoMatch(tmpl, base, pos, sequence) && !MatchesAt(tmpl, pos, sequence)
    ensures NoMatch(tmpl, base, pos + 1, sequence)
  {
  }

  lemma {:induction false} GrowSlice(tmpl: Bytes, base: nat, pos: nat)
    requires base <= pos < |tmpl|
    ensures tmpl[base..pos] + [tmpl[pos]] == tmpl[base..pos + 1]
  {
  }

  lemma {:induction false} FoundFirst(tmpl: Bytes, from: nat, at: nat, sequence: Bytes)
    requires sequence != [] && from <= at <= |tmpl| && NoMatch(tmpl, from, at, sequence) && MatchesAt(tmpl, at, sequence)
    ensures FindAt(tmpl, from, sequence) == Some(at)
  {
    hide FindAt, MatchesAt;
  }

  lemma {:induction false} FoundNowhere(tmpl: Bytes, from: nat, sequence: Bytes)
    requires sequence != [] && from <= |tmpl| && NoMatch(tmpl, from, |tmpl|, sequence)
    ensures FindAt(tmpl, from, sequence) == None
  {
    hide FindAt;
    assert !MatchesAt(tmpl, |tmpl|, sequence);
  }

  lemma {:induction false} TagOpens(tmpl: Bytes, base: nat, pos: nat, st: Parse, o: Options)
    requires st.levels != [] && Usable(st.delims) && base <= pos < |tmpl|
    requires NoMatch(tmpl, base, pos, st.delims.start) && MatchesAt(tmpl, pos, st.delims.start)
    ensures ParseFrom(tmpl, base, st, o) == ParseTag(tmpl, base, pos, st, o)
    ensures InsideTag(tmpl, base, pos, Inside(tmpl, pos, st.delims.start), st.delims.start, IsTriple(tmpl, pos, st.delims.start))
    ensures pos + |st.delims.start| <= Inside(tmpl, pos, st.delims.start) <= |tmpl|
    ensures Inside(tmpl, pos, st.delims.start)
         == pos + |st.delims.start| + if IsTriple(tmpl, pos, st.delims.start) then 1 else 0
    ensures PendingTag(tmpl, base, pos, st, o, ParseFrom(tmpl, base, st, o))
  {
    hide ParseTag, MatchesAt;
    FoundFirst(tmpl, base, pos, st.delims.start);
  }

  lemma {:induction false} InsideTagFacts(tmpl: Bytes, text: nat, tagStart: nat, base: nat, start: Bytes, triple: bool)
    requires InsideTag(tmpl, text, tagStart, base, start, triple)
    ensures text <= tagStart && MatchesAt(tmpl, tagStart, start) && base == Inside(tmpl, tagStart, start)
    ensures triple == IsTriple(tmpl, tagStart, start)
  {
  }

  /** At its closing delimiter the tag steps, and the parse goes on behind it. */
  lemma {:induction false} TagCloses(tmpl: Bytes, text: nat, tagStart: nat, base: nat, pos: nat, st: Parse, o: Options,
                                     whole: Result<Parse>) returns (stepped: Result<Stepped>)
    requires PendingTag(tmpl, text, tagStart, st, o, whole)
    requires base == Inside(tmpl, tagStart, st.delims.start) && base <= pos < |tmpl| && pos <= base + o.limits.maxTagBytes
    requires NoMatch(tmpl, base, pos, st.delims.stop) && MatchesAt(tmpl, pos, st.delims.stop)
    requires Stacked(st.levels, text, tmpl, o)
    ensures stepped == Stepping(tmpl, text, tagStart, pos, st, o)
    ensures stepped.Err? ==> whole == Err(stepped.error)
    ensures stepped.Ok? ==>
              && stepped.value.parse.levels != [] && Usable(stepped.value.parse.delims) && pos < stepped.value.next <= |tmpl|
              && ParseFrom(tmpl, stepped.value.next, stepped.value.parse, o) == whole
              && Stacked(stepped.value.parse.levels, stepped.value.next, tmpl, o)
  {
    hide FindTag, TagStep, MatchesAt, Stacked, Recognized, FindAt;
    FoundFirst(tmpl, base, pos, st.delims.stop);
    stepped := Stepping(tmpl, text, tagStart, pos, st, o);
    var found := FindTag(tmpl, text, tagStart, pos, st.delims, o);
    if stepped.Ok? {
      FoundRecognized(tmpl, text, tagStart, pos, st.delims, o);
      StepTiles(tmpl, st, found.value, o);
      UsableAfter(tmpl, st, found.value, o);
    }
  }

  lemma {:induction false} ScannedStep(r: Result<Scanned>, spec: Result<Stepped>, tmpl: Bytes, source: nat)
    requires FollowsStep(r, spec, tmpl, source)
    ensures spec.Err? ==> r == Err(spec.error)
    ensures spec.Ok? ==> r.Ok? && Mirror(r.value.work, spec.value.parse, tmpl, source) && r.value.next == spec.value.next
                         && spec.value.parse.delims == Delims(r.value.start, r.value.stop)
  {
    hide Mirror;
  }

  lemma {:induction false} TagTooLong(tmpl: Bytes, text: nat, tagStart: nat, base: nat, pos: nat, triple: bool, st: Parse,
                                      o: Options, whole: Result<Parse>)
    requires PendingTag(tmpl, text, tagStart, st, o, whole) && InsideTag(tmpl, text, tagStart, base, st.delims.start, triple)
    requires base <= pos < |tmpl| && NoMatch(tmpl, base, pos + 1, st.delims.stop) && pos - base >= o.limits.maxTagBytes
    ensures whole == Err(TagSize)
  {
    hide FindTag, TagStep, FindAt;
    var close := FindAt(tmpl, base, st.delims.stop);
    if close.Some? {
      assert close.value > pos;
    }
  }

  lemma {:induction false} TagNotClosed(tmpl: Bytes, text: nat, tagStart: nat, base: nat, triple: bool, st: Parse, o: Options,
                                        whole: Result<Parse>)
    requires PendingTag(tmpl, text, tagStart, st, o, whole) && InsideTag(tmpl, text, tagStart, base, st.delims.start, triple)
    requires base <= |tmpl| && NoMatch(tmpl, base, |tmpl|, st.delims.stop) && |tmpl| <= base + o.limits.maxTagBytes
    ensures whole == Err(UnclosedTag)
  {
    hide FindTag, TagStep, FindAt;
    FoundNowhere(tmpl, base, st.delims.stop);
  }

  lemma {:induction false} NoMoreTags(tmpl: Bytes, base: nat, st: Parse, o: Options)
    requires st.levels != [] && Usable(st.delims) && base <= |tmpl| && NoMatch(tmpl, base, |tmpl|, st.delims.start)
    ensures ParseFrom(tmpl, base, st, o)
         == if |st.levels| > 1 then Err(UnclosedSection)
            else if base < |tmpl| then AddNode(st, Literal(FLAG_NONE, o.escapeOutput, base, |tmpl|), o)
            else Ok(st)
  {
    hide FindAt, ParseTag, AddNode;
    FoundNowhere(tmpl, base, st.delims.start);
  }

  /** The state immediately before `tmpl[pos]`, from the state before the previous byte. */
  method TrackLine(tmpl: Bytes, pos: nat, lineStart: nat, linePrefixIsIndent: bool) returns (start: nat, indent: bool)
    requires pos < |tmpl| && LineTracked(tmpl, pos, lineStart, linePrefixIsIndent)
    ensures start == LineStart(tmpl, pos) && indent == PrefixIsIndent(tmpl, pos) && LineTracked(tmpl, pos + 1, start, indent)
  {
    hide LineStart, PrefixIsIndent;
    LineAdvance(tmpl, pos, lineStart, linePrefixIsIndent);
    start, indent := lineStart, linePrefixIsIndent;
    if pos > 0 {
      var previous := tmpl[pos - 1];
      if previous == NEWLINE {
        start, indent := pos, true;
      } else if !IsIndentByte(previous) {
        indent := false;
      }
    }
  }

  method OpensTriple(tmpl: Bytes, pos: nat, start: Bytes) returns (triple: bool)
    ensures triple == IsTriple(tmpl, pos, start)
  {
    triple := start == OPEN && MatchesAt(tmpl, pos + 2, BRACE);
  }

  /** Behind the last tag: nothing may be open, and what is left is text. */
  method FinishScan(work: Work, buffer: Bytes, o: Options, tmpl: Bytes, source: nat, ghost st: Parse, ghost base: nat)
    returns (r: Result<Work>)
    requires Mirror(work, st, tmpl, source) && st.levels != [] && Usable(st.delims)
    requires base <= |tmpl| && buffer == tmpl[base..] && NoMatch(tmpl, base, |tmpl|, st.delims.start)
    ensures Follows(r, ParseFrom(tmpl, base, st, o), tmpl, source)
  {
    hide Mirror, ParseFrom, NoMatch;
    NoMoreTags(tmpl, base, st, o);
    MirrorTop(work, st, tmpl, source);
    if |work.nodeStack| > 1 {
      return Err(UnclosedSection);
    }
    r := Ok(work);
    assert buffer == tmpl[base..|tmpl|];
    if |buffer| > 0 {
      var data := if o.escapeOutput then Escaped(buffer) else buffer;
      r := AppendItem(work, OutputNode(FLAG_NONE, data), o, tmpl, source, st, Literal(FLAG_NONE, o.escapeOutput, base, |tmpl|));
    }
  }

  class Tokenizer {
    var startSequence: Bytes
    var stopSequence: Bytes
    var escapeByDefault: bool

    ghost predicate Valid()
      reads this
    {
      startSequence != [] && stopSequence != []
    }

    constructor ()
      ensures Valid() && startSequence == OPEN && stopSequence == CLOSE && escapeByDefault
    {
      startSequence, stopSequence, escapeByDefault := OPEN, CLOSE, true;
    }

    method SetStartSequence(start: Bytes) returns (r: Outcome)
      requires Valid()
      modifies this`startSequence
      ensures Valid() && r == if start == [] then Fail(EmptyDelimiter) else Pass
      ensures startSequence == if start == [] then old(startSequence) else start
    {
      if start == [] {
        return Fail(EmptyDelimiter);
      }
      startSequence := start;
      r := Pass;
    }

    method SetStopSequence(stop: Bytes) returns (r: Outcome)
      requires Valid()
      modifies this`stopSequence
      ensures Valid() && r == if stop == [] then Fail(EmptyDelimiter) else Pass
      ensures stopSequence == if stop == [] then old(stopSequence) else stop
    {
      if stop == [] {
        return Fail(EmptyDelimiter);
      }
      stopSequence := stop;
      r := Pass;
    }

    /** The scan loop: literal text and tags are collected byte by byte, and the indentation of the current line is kept up
        to date as it goes. */
    method ScanTemplate(tmpl: Bytes, o: Options, source: nat) returns (r: Result<Work>)
      requires Valid() && o.escapeByDefault == escapeByDefault
      ensures var whole := ParseFrom(tmpl, 0, Initial(Delims(startSequence, stopSequence)), o);
              Follows(r, whole, tmpl, source) && (whole.Ok? ==> Stacked(whole.value.levels, |tmpl|, tmpl, o))
    {
      hide Mirror, Stacked, ParseFrom, ParseTag, LineStart, PrefixIsIndent, IsTriple, FindAt, Stepping, MatchesAt, FollowsStep;
      hide InsideTag, NoMatch, LineTracked;
      var start, stop := startSequence, stopSequence;
      var buffer, outputBeforeTag: Bytes := [], [];
      var pos := 0;
      var skipUntil: Option<nat> := None;
      var lineStart, linePrefixIsIndent := 0, true;
      var inTag, inTripleTag := false, false;
      var tagStart, tagIndentationBytes, tagPrefixIsIndent := 0, 0, false;
      var work := Work([ParseFrame(RootNode([]), 0)], 0);
      // the parse that corresponds to the scan; where the current text or tag content starts; where the text before the
      // current tag starts
      ghost var st := Initial(Delims(start, stop));
      ghost var base: nat, text: nat := 0, 0;
      ghost var whole := ParseFrom(tmpl, 0, st, o);
      NothingOpen(st.delims, tmpl, o);
      MirrorInitial(st.delims, tmpl, source);
      ParseTiles(tmpl, 0, st, o);
      ScanStarts(tmpl, start);
      while pos < |tmpl|
        invariant pos <= |tmpl| && base <= |tmpl| && text <= base
        invariant LineTracked(tmpl, pos, lineStart, linePrefixIsIndent)
        invariant start == st.delims.start && stop == st.delims.stop && Usable(st.delims) && st.levels != []
        invariant Mirror(work, st, tmpl, source) && Stacked(st.levels, if inTag then text else base, tmpl, o)
        invariant skipUntil.Some? ==> base == skipUntil.value + 1 && pos <= base && buffer == []
        invariant skipUntil.None? ==> base <= pos && buffer == tmpl[base..pos]
        invariant !inTag ==> ParseFrom(tmpl, base, st, o) == whole && NoMatch(tmpl, base, pos, start) && !inTripleTag
                             && outputBeforeTag == []
        invariant inTag ==> InsideTag(tmpl, text, tagStart, base, start, inTripleTag)
                            && PendingTag(tmpl, text, tagStart, st, o, whole) && NoMatch(tmpl, base, pos, stop)
                            && pos <= base + o.limits.maxTagBytes
        invariant inTag ==> text <= tagStart < |tmpl| && outputBeforeTag == tmpl[text..tagStart]
                            && tagPrefixIsIndent == PrefixIsIndent(tmpl, tagStart)
                            && tagIndentationBytes == tagStart - LineStart(tmpl, tagStart)
      {
        lineStart, linePrefixIsIndent := TrackLine(tmpl, pos, lineStart, linePrefixIsIndent);
        if skipUntil.Some? && pos <= skipUntil.value {
          NothingSkipped(tmpl, base, pos, if inTag then stop else start);
        } else {
          skipUntil := None;
          if !inTag {
            StartsHere(tmpl, pos, start);
            if tmpl[pos] == start[0] && MatchesAt(tmpl, pos, start) {
              outputBeforeTag, buffer := buffer, outputBeforeTag;
              inTag := true;
              tagStart, tagPrefixIsIndent, tagIndentationBytes := pos, linePrefixIsIndent, pos - lineStart;
              TagOpens(tmpl, base, pos, st, o);
              inTripleTag := OpensTriple(tmpl, pos, start);
              skipUntil := Some(if inTripleTag then pos + |start| else pos + |start| - 1);
              text, base := base, Inside(tmpl, pos, start);
              NothingSkipped(tmpl, base, pos, stop);
            } else {
              OneMore(tmpl, base, pos, start);
            }
          } else {
            StartsHere(tmpl, pos, stop);
            if tmpl[pos] == stop[0] && MatchesAt(tmpl, pos, stop) {
              InsideTagFacts(tmpl, text, tagStart, base, start, inTripleTag);
              var closed := CloseTag(buffer, pos, start, stop, inTripleTag, outputBeforeTag, tagStart, tagPrefixIsIndent,
                                     tagIndentationBytes, work, o, tmpl, source, st, text);
              ghost var stepped := TagCloses(tmpl, text, tagStart, base, pos, st, o, whole);
              ScannedStep(closed, stepped, tmpl, source);
              if closed.Err? {
                return Err(closed.error);
              }
              start, stop, work := closed.value.start, closed.value.stop, closed.value.work;
              outputBeforeTag, buffer := [], [];
              inTag, inTripleTag := false, false;
              skipUntil := Some(closed.value.next - 1);
              st, base, text := stepped.value.parse, stepped.value.next, 0;
              NothingSkipped(tmpl, base, pos, start);
            } else {
              OneMore(tmpl, base, pos, stop);
            }
          }
          if skipUntil.None? {
            if inTag && |buffer| >= o.limits.maxTagBytes {
              TagTooLong(tmpl, text, tagStart, base, pos, inTripleTag, st, o, whole);
              return Err(TagSize);
            }
            GrowSlice(tmpl, base, pos);
            buffer := buffer + [tmpl[pos]];
          }
        }
        pos := pos + 1;
      }
      if inTag {
        TagNotClosed(tmpl, text, tagStart, base, inTripleTag, st, o, whole);
        return Err(UnclosedTag);
      }
      r := FinishScan(work, buffer, o, tmpl, source, st, base);
    }

    /** Tokenizing yields the tree of the template's pieces, or the reason the template is refused. `source` identifies the
        copy of the template that its sections share. */
    method Tokenize(tmpl: Bytes, limits: TokenizerLimits, escapeOutput: bool, source: nat) returns (r: Result<Node>)
      requires Valid()
      ensures var pieces := Pieces(tmpl, Delims(startSequence, stopSequence), Options(limits, escapeByDefault, escapeOutput));
              match pieces
              case Err(e) => r == Err(e)
              case Ok(items) => AllPlaced(items, tmpl) && r == Ok(TreeOf(items, tmpl, source))
    {
      var o := Options(limits, escapeByDefault, escapeOutput);
      if |tmpl| > limits.maxInputBytes {
        return Err(InputSize);
      }
      if |startSequence| > limits.maxDelimiterBytes || |stopSequence| > limits.maxDelimiterBytes {
        return Err(DelimiterSize);
      }
      ghost var delims := Delims(startSequence, stopSequence);
      ghost var whole := ParseFrom(tmpl, 0, Initial(delims), o);
      var scan := ScanTemplate(tmpl, o, source);
      if scan.Err? {
        return Err(scan.error);
      }
      RootOf(scan.value, whole.value, tmpl, source, o);
      return Ok(scan.value.nodeStack[0].node);
    }
  }

  lemma {:induction false} RootOf(w: Work, st: Parse, tmpl: Bytes, source: nat, o: Options)
    requires Mirror(w, st, tmpl, source) && |st.levels| == 1 && Stacked(st.levels, |tmpl|, tmpl, o)
    ensures AllPlaced(st.levels[0].items, tmpl) && w.nodeStack[0].node == TreeOf(st.levels[0].items, tmpl, source)
  {
  }

  // ---- Reading a tag ----------------------------------------------------------------------------------

  /** The content of a change of delimiters. */
  method ReadDelimiters(text: Bytes, maxDelimiterBytes: nat) returns (r: Result<Head>)
    requires text != []
    ensures r == ChangeOf(text, maxDelimiterBytes)
  {
    hide Words, Trim;
    if text[|text| - 1] != EQUALS {
      return Err(DelimiterUnclosed);
    }
    var inner := Trim(text, WHITESPACE + [EQUALS]);
    var delims := StringTok(inner, WHITESPACE);
    WordsConserve(inner, WHITESPACE, 0);
    if |delims| != 2 || |delims[0]| < 1 || |delims[1]| < 1 {
      TwoWords(delims);
      return Err(DelimiterFormat);
    }
    if |delims[0]| > maxDelimiterBytes || |delims[1]| > maxDelimiterBytes {
      return Err(DelimiterSize);
    }
    return Ok(Head(TypeVariable, FLAG_NONE, [], Some(Delims(delims[0], delims[1]))));
  }

  lemma {:induction false} TwoWords(words: seq<Bytes>)
    requires AreWords(words, WHITESPACE)
    ensures |words| == 2 ==> |words[0]| >= 1 && |words[1]| >= 1
  {
    if |words| == 2 {
      assert words[1..][0] == words[1];
    }
  }

  /** What the content of a tag says. */
  method ReadTag(raw: Bytes, triple: bool, escapeByDefault: bool, maxDelimiterBytes: nat) returns (r: Result<Head>)
    ensures r == Classify(raw, triple, escapeByDefault, maxDelimiterBytes)
  {
    hide ChangeOf, Trim;
    var buffer := Trim(raw, WHITESPACE);
    if |buffer| <= 0 {
      return Err(TagEmpty);
    }
    var currentType, currentFlags := TypeVariable, FLAG_NONE;
    var sigil := buffer[0];
    if sigil == '&' as int {
      currentFlags := FLAG_ESCAPE - currentFlags;
    } else if sigil == '^' as int {
      currentType := TypeNegate;
    } else if sigil == '#' as int {
      currentType := TypeSection;
    } else if sigil == '/' as int {
      currentType := TypeStop;
    } else if sigil == '!' as int {
      currentType := TypeComment;
    } else if sigil == '>' as int {
      currentType := TypePartial;
    } else if sigil == EQUALS {
      r := ReadDelimiters(buffer, maxDelimiterBytes);
      return;
    }
    if !currentType.TypeVariable? || currentFlags != 0 {
      buffer := Trim(buffer[1..], WHITESPACE);
    }
    if currentType.TypeVariable? {
      if triple {
        currentFlags := FLAG_ESCAPE - currentFlags;
      }
      if escapeByDefault {
        currentFlags := FLAG_ESCAPE - currentFlags;
      }
    }
    return Ok(Head(currentType, currentFlags, buffer, None));
  }

  // ---- What a closed tag does -----------------------------------------------------------------------

  function OutputNode(flags: int, text: Bytes): Node {
    Leaf(TypeOutput, flags, text)
  }

  /** The text before the tag, its indentation set apart when the tag stands alone. */
  method PublishBefore(w: Work, outputBeforeTag: Bytes, tagStart: nat, tagIndentationBytes: nat, standalone: bool,
                       markerFlags: int,
                       o: Options, tmpl: Bytes, source: nat, ghost st: Parse, ghost f: Found, ghost lineEnd: Option<nat>)
    returns (r: Result<Work>)
    requires Mirror(w, st, tmpl, source) && st.levels != [] && f.Within(tmpl) && outputBeforeTag == tmpl[f.text..f.open]
    requires standalone == lineEnd.Some? && tagStart == f.open && tagIndentationBytes == f.open - LineStart(tmpl, f.open)
    requires (standalone ==> f.text <= LineStart(tmpl, f.open)) && markerFlags == MarkerFlags(f.head)
    ensures Follows(r, AddBefore(tmpl, st, f, lineEnd, o), tmpl, source)
  {
    hide Mirror, LineStart, MarkerFlags;
    ghost var cut := if standalone then LineStart(tmpl, f.open) else f.open;
    var output := outputBeforeTag;
    if standalone {
      output := output[..|output| - tagIndentationBytes];
    }
    assert output == tmpl[f.text..cut];
    r := Ok(w);
    ghost var st' := st;
    if output != [] {
      ghost var item := Literal(FLAG_NONE, false, f.text, cut);
      r := AppendItem(w, OutputNode(FLAG_NONE, output), o, tmpl, source, st, item);
      if r.Err? {
        return;
      }
      st' := AddNode(st, item, o).value;
    }
    if standalone {
      var prefix := tmpl[tagStart - tagIndentationBytes..tagStart];
      r := AppendItem(r.value, OutputNode(markerFlags, prefix), o, tmpl, source, st', Literal(markerFlags, false, cut, f.open));
    }
  }

  /** The tag itself: appended as a leaf, pushed as an open section, or closing the innermost one. */
  method PlaceTag(w: Work, head: Head, start: Bytes, stop: Bytes, tagStart: nat, sectionBegin: nat, o: Options, tmpl: Bytes,
                  source: nat, ghost st: Parse, ghost f: Found)
    returns (r: Result<Work>)
    requires Mirror(w, st, tmpl, source) && st.levels != [] && f.Within(tmpl) && head == f.head && head.change.None?
    requires f.spelling.delims == Delims(start, stop) && tagStart == f.open && sectionBegin == f.End()
    requires TopLevel(st).body <= f.open && KindsSound(st.levels) && !head.kind.TypeRoot?
    ensures Follows(r, AddTag(st, f, o), tmpl, source)
  {
    hide Mirror, Erase, Placed, KindsSound;
    MirrorTop(w, st, tmpl, source);
    ghost var tag := Tag(f.head, f.spelling, f.open, f.End());
    var node := Leaf(head.kind, head.flags, head.name);
    TagErased(tag, tmpl, source);
    if Opens(head.kind) {
      var currentDepth := |w.nodeStack| - 1;
      if currentDepth >= o.limits.maxNestingDepth {
        return Err(ParseNesting);
      }
      if w.nodeCount >= o.limits.maxNodes {
        return Err(ParseNodes);
      }
      var section := BlockNode(head, Delims(start, stop), [], None);
      var frame := ParseFrame(section, if head.kind.TypeSection? then sectionBegin else 0);
      MirrorPush(w, st, Level(f.head, f.spelling, f.open, f.End(), []), tmpl, source);
      return Ok(Work(w.nodeStack + [frame], w.nodeCount + 1));
    }
    if head.kind.TypeStop? {
      if |w.nodeStack| <= 1 {
        return Err(ExtraClosing);
      }
      TopIsBlock(st);
      var openSection := w.nodeStack[|w.nodeStack| - 1].node;
      if openSection.data.None? || openSection.data.value != head.name {
        return Err(MismatchedClosing);
      }
      r := AppendItem(w, node, o, tmpl, source, st, tag);
      if r.Err? {
        return;
      }
      MirrorTop(r.value, AddNode(st, tag, o).value, tmpl, source);
      var popped := PopSection(r.value, tagStart, tmpl, source, AddNode(st, tag, o).value, f);
      return Ok(popped);
    }
    r := AppendItem(w, node, o, tmpl, source, st, tag);
  }

  /** Only the lowest level is the root; all others are sections. */
  predicate KindsSound(levels: seq<Level>) {
    levels != [] && levels[0].head.kind.TypeRoot?
    && forall k :: 0 < k < |levels| ==> Opens(levels[k].head.kind)
  }

  lemma {:induction false} TopIsBlock(st: Parse)
    requires KindsSound(st.levels) && |st.levels| > 1
    ensures Opens(TopLevel(st).head.kind)
  {
  }

  lemma {:induction false} TagErased(tag: Item, tmpl: Bytes, source: nat)
    requires tag.Tag?
    ensures Placed(tag, tmpl)
    ensures Erase(tag, tmpl, source)
         == if tag.head.change.Some? then [] else [Leaf(tag.head.kind, tag.head.flags, tag.head.name)]
  {
  }

  lemma {:induction false} MirrorPush(w: Work, st: Parse, level: Level, tmpl: Bytes, source: nat)
    requires Mirror(w, st, tmpl, source) && level.items == [] && !level.head.kind.TypeRoot?
    ensures var frame := ParseFrame(BlockNode(level.head, level.spelling.delims, [], None),
                                    if level.head.kind.TypeSection? then level.body else 0);
            Mirror(Work(w.nodeStack + [frame], w.nodeCount + 1),
                   st.(count := st.count + 1, levels := st.levels + [level]), tmpl, source)
  {
  }

  /** The closed section becomes a child; if it is no inverted one, the length of its source is settled. */
  method PopSection(w: Work, tagStart: nat, tmpl: Bytes, source: nat, ghost st: Parse, ghost f: Found) returns (popped: Work)
    requires Mirror(w, st, tmpl, source) && |st.levels| > 1 && f.Within(tmpl) && tagStart == f.open
    requires TopLevel(st).body <= f.open && Opens(TopLevel(st).head.kind)
    ensures Mirror(popped, CloseBlock(st, f), tmpl, source)
  {
    hide Mirror, Erase, EraseAll;
    MirrorTop(w, st, tmpl, source);
    ghost var top := TopLevel(st);
    var last := |w.nodeStack| - 1;
    var frame := w.nodeStack[last];
    var section := frame.node;
    if section.kind.TypeSection? {
      var length := tagStart - frame.sectionBegin;
      section := section.(source := Some(SourceSlice(source, tmpl, frame.sectionBegin, length)));
    }
    var parent := w.nodeStack[last - 1];
    popped := Work(w.nodeStack[..last][last - 1 := parent.(node := WithChild(parent.node, section))], w.nodeCount);
    ghost var below := st.(levels := st.levels[..last]);
    ghost var block := Block(top.head, top.spelling, top.from, top.body, f.open, f.End(), top.items);
    MirrorBelow(w, st, tmpl, source);
    BlockErased(block, tmpl, source);
    MirrorAdd(Work(w.nodeStack[..last], w.nodeCount), below, block, tmpl, source);
  }

  lemma {:induction false} MirrorBelow(w: Work, st: Parse, tmpl: Bytes, source: nat)
    requires Mirror(w, st, tmpl, source) && |st.levels| > 1
    ensures var last := |st.levels| - 1;
            Mirror(Work(w.nodeStack[..last], w.nodeCount), st.(levels := st.levels[..last]), tmpl, source)
  {
  }

  lemma {:induction false} BlockErased(block: Item, tmpl: Bytes, source: nat)
    requires block.Block? && block.body <= block.close <= |tmpl| && AllPlaced(block.items, tmpl)
    ensures Placed(block, tmpl)
    ensures Erase(block, tmpl, source)
         == [BlockNode(block.head, block.spelling.delims, EraseAll(block.items, tmpl, source),
                       Some(SourceSlice(source, tmpl, block.body, block.close - block.body)))]
  {
  }

  /** The state of the scan after a tag: the delimiters in force, the nodes, and where reading goes on. */
  datatype Scanned = Scanned(start: Bytes, stop: Bytes, work: Work, next: nat)

  ghost predicate FollowsStep(r: Result<Scanned>, spec: Result<Stepped>, tmpl: Bytes, source: nat) {
    match spec
    case Err(e) => r == Err(e)
    case Ok(s) => r.Ok? && Mirror(r.value.work, s.parse, tmpl, source) && s.parse.delims == Delims(r.value.start, r.value.stop)
                  && r.value.next == s.next
  }

  /** The tag, read and stepped over. */
  function Stepping(tmpl: Bytes, text: nat, open: nat, close: nat, st: Parse, o: Options): Result<Stepped>
    requires st.levels != [] && text <= open && MatchesAt(tmpl, open, st.delims.start) && Usable(st.delims)
    requires Inside(tmpl, open, st.delims.start) <= close && MatchesAt(tmpl, close, st.delims.stop)
  {
    var found :- FindTag(tmpl, text, open, close, st.delims, o);
    TagStep(tmpl, st, found, o)
  }

  lemma {:induction false} StackedKinds(levels: seq<Level>, to: nat, tmpl: Bytes, o: Options)
    requires Stacked(levels, to, tmpl, o)
    ensures KindsSound(levels) && levels[|levels| - 1].body <= to
    decreases |levels|
  {
    hide Run, SpelledTag;
    var last := |levels| - 1;
    RunOrdered(levels[last].items, levels[last].body, to, tmpl, o);
    if last > 0 {
      StackedKinds(levels[..last], levels[last].from, tmpl, o);
      forall k | 0 < k < |levels|
        ensures Opens(levels[k].head.kind)
      {
        if k < last {
          assert levels[k] == levels[..last][k];
        }
      }
    }
  }

  lemma {:induction false} RunOrdered(items: seq<Item>, from: nat, to: nat, tmpl: Bytes, o: Options)
    requires Run(items, from, to, tmpl, o)
    ensures from <= to
  {
    TilesOrdered(items, from, to);
  }

  lemma {:induction false} SameKinds(st: Parse, tmpl: Bytes, f: Found, lineEnd: Option<nat>, o: Options)
    requires st.levels != [] && f.Within(tmpl) && (lineEnd.Some? ==> f.text <= LineStart(tmpl, f.open)) && KindsSound(st.levels)
    ensures var r := AddBefore(tmpl, st, f, lineEnd, o);
            r.Ok? ==> KindsSound(r.value.levels) && TopLevel(r.value).body == TopLevel(st).body && r.value.delims == st.delims
                      && |r.value.levels| == |st.levels|
  {
    hide LineStart;
  }

  /** Everything the end of a tag sets off. */
  method CloseTag(raw: Bytes, pos: nat, start: Bytes, stop: Bytes, triple: bool, outputBeforeTag: Bytes, tagStart: nat,
                  tagPrefixIsIndent: bool, tagIndentationBytes: nat, w: Work, o: Options, tmpl: Bytes, source: nat,
                  ghost st: Parse, ghost text: nat)
    returns (r: Result<Scanned>)
    requires Mirror(w, st, tmpl, source) && Stacked(st.levels, text, tmpl, o) && st.levels != []
    requires st.delims == Delims(start, stop) && Usable(st.delims) && text <= tagStart
    requires MatchesAt(tmpl, tagStart, start) && Inside(tmpl, tagStart, start) <= pos && MatchesAt(tmpl, pos, stop)
    requires raw == tmpl[Inside(tmpl, tagStart, start)..pos] && triple == IsTriple(tmpl, tagStart, start)
    requires outputBeforeTag == tmpl[text..tagStart] && tagPrefixIsIndent == PrefixIsIndent(tmpl, tagStart)
    requires tagIndentationBytes == tagStart - LineStart(tmpl, tagStart)
    ensures FollowsStep(r, Stepping(tmpl, text, tagStart, pos, st, o), tmpl, source)
  {
    hide Mirror, Stacked, Classify, LineStart, LineEnd, PrefixIsIndent, AddBefore, AddTag, AddAfter, IsTriple, KindsSound;
    hide Erase;
    StackedKinds(st.levels, text, tmpl, o);
    var read := ReadTag(raw, triple, o.escapeByDefault, o.limits.maxDelimiterBytes);
    if read.Err? {
      return Err(read.error);
    }
    var head := read.value;
    ghost var f := FindTag(tmpl, text, tagStart, pos, st.delims, o).value;
    var tagEnd := pos + |stop|;
    var standaloneEnd: Option<nat> := None;
    if !triple && (head.change.Some? || IsStandaloneType(head.kind)) && tagPrefixIsIndent {
      standaloneEnd := StandaloneLineEnd(tmpl, tagEnd);
    }
    assert standaloneEnd == Standalone(tmpl, f);
    if standaloneEnd.Some? && tagIndentationBytes > |outputBeforeTag| {
      return Err(StandaloneState);
    }
    var sourceFlags := if head.change.None? && head.kind.TypePartial? then FLAGS_MARKER else FLAG_LAMBDA_ONLY;
    var work := PublishBefore(w, outputBeforeTag, tagStart, tagIndentationBytes, standaloneEnd.Some?, sourceFlags, o, tmpl,
                              source, st, f, standaloneEnd);
    if work.Err? {
      return Err(work.error);
    }
    ghost var before := AddBefore(tmpl, st, f, standaloneEnd, o).value;
    SameKinds(st, tmpl, f, standaloneEnd, o);
    var extra := if triple && head.change.None? && stop == CLOSE then 1 else 0;
    assert extra == if ExtraBrace(f.spelling, f.head.change.Some?) then 1 else 0;
    var newStart, newStop := start, stop;
    if head.change.Some? {
      newStart, newStop := head.change.value.start, head.change.value.stop;
      ChangeAdds(work.value, before, f, o, tmpl, source);
    } else {
      HeadNotRoot(raw, triple, o.escapeByDefault, o.limits.maxDelimiterBytes);
      work := PlaceTag(work.value, head, start, stop, tagStart, tagEnd + extra, o, tmpl, source, before, f);
      if work.Err? {
        return Err(work.error);
      }
      SameDelims(before, f, o);
    }
    ghost var tagged := AddTag(before, f, o).value;
    if standaloneEnd.Some? {
      work := PublishAfter(work.value, tagEnd, standaloneEnd.value, o, tmpl, source, tagged, f);
      if work.Err? {
        return Err(work.error);
      }
    } else {
      NothingAfter(tagged, f, o);
    }
    SameDelimsAfter(tagged, f, standaloneEnd, o);
    if extra == 1 && !MatchesAt(tmpl, pos + 2, CLOSING_BRACE) {
      return Err(MissingBrace);
    }
    return Ok(Scanned(newStart, newStop, work.value, if standaloneEnd.Some? then standaloneEnd.value else tagEnd + extra));
  }

  /** A change of delimiters leaves no node. */
  lemma {:induction false} ChangeAdds(w: Work, st: Parse, f: Found, o: Options, tmpl: Bytes, source: nat)
    requires Mirror(w, st, tmpl, source) && st.levels != [] && f.head.change.Some?
    ensures AddTag(st, f, o).Ok? && Mirror(w, AddTag(st, f, o).value, tmpl, source)
    ensures AddTag(st, f, o).value.delims == f.head.change.value
  {
    hide Mirror, Erase, Placed;
    var tag := Tag(f.head, f.spelling, f.open, f.End());
    TagErased(tag, tmpl, source);
    MirrorAdd(w, st, tag, tmpl, source);
    MirrorDelims(w, Add(st, tag), f.head.change.value, tmpl, source);
  }

  lemma {:induction false} MirrorDelims(w: Work, st: Parse, delims: Delims, tmpl: Bytes, source: nat)
    requires Mirror(w, st, tmpl, source)
    ensures Mirror(w, st.(delims := delims), tmpl, source)
  {
  }

  lemma {:induction false} HeadNotRoot(raw: Bytes, triple: bool, escapeByDefault: bool, maxDelimiterBytes: nat)
    ensures var r := Classify(raw, triple, escapeByDefault, maxDelimiterBytes); r.Ok? ==> !r.value.kind.TypeRoot?
  {
    hide Trim, Words;
  }

  lemma {:induction false} SameDelims(st: Parse, f: Found, o: Options)
    requires st.levels != [] && f.head.change.None? && AddTag(st, f, o).Ok?
    ensures AddTag(st, f, o).value.delims == st.delims
  {
  }

  lemma {:induction false} SameDelimsAfter(st: Parse, f: Found, lineEnd: Option<nat>, o: Options)
    requires st.levels != []
    ensures AddAfter(st, f, lineEnd, o).Ok? ==> AddAfter(st, f, lineEnd, o).value.delims == st.delims
  {
  }

  lemma {:induction false} NothingAfter(st: Parse, f: Found, o: Options)
    requires st.levels != []
    ensures AddAfter(st, f, None, o) == Ok(st)
  {
  }

  /** The rest of a standalone line. */
  method PublishAfter(w: Work, tagEnd: nat, lineEnd: nat, o: Options, tmpl: Bytes, source: nat, ghost st: Parse, ghost f: Found)
    returns (r: Result<Work>)
    requires Mirror(w, st, tmpl, source) && st.levels != [] && f.End() == tagEnd <= lineEnd <= |tmpl|
    ensures Follows(r, AddAfter(st, f, Some(lineEnd), o), tmpl, source)
  {
    hide Mirror;
    r := Ok(w);
    var rest := tmpl[tagEnd..lineEnd];
    if rest != [] {
      r := AppendItem(w, OutputNode(FLAG_LAMBDA_ONLY, rest), o, tmpl, source, st, Literal(FLAG_LAMBDA_ONLY, false, tagEnd, lineEnd));
    }
  }
}
