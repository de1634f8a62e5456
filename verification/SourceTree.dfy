/** What a template says, tag by tag: the pieces of the source text, the tree they form, and the nodes they become. */
module SourceTree {
  import opened Base
  import opened Template
  import opened RenderTrace
  import opened Strings

  const BRACE: Bytes := ['{' as int]
  const CLOSING_BRACE: Bytes := ['}' as int]
  const EQUALS: byte := '=' as int

  datatype Delims = Delims(start: Bytes, stop: Bytes)

  const DEFAULT := Delims(OPEN, CLOSE)

  /** What a tag means: a node, or a change of delimiters. */
  datatype Head = Head(kind: Type, flags: int, name: Bytes, change: Option<Delims>)

  /** How a tag is written: what stands between its delimiters, and whether it has triple braces. */
  datatype Spelling = Spelling(delims: Delims, triple: bool, raw: Bytes)

  /** A piece of the source; a block runs from its opening tag to the end of its closing tag, which is its last item. */
  datatype Item =
    | Literal(flags: int, escaped: bool, from: nat, to: nat)
    | Tag(head: Head, spelling: Spelling, from: nat, to: nat)
    | Block(head: Head, spelling: Spelling, from: nat, body: nat, close: nat, to: nat, items: seq<Item>)

  // ---- Tags ---------------------------------------------------------------------------------------

  /** A triple tag closed by two braces takes a third one along. */
  predicate ExtraBrace(s: Spelling, change: bool) {
    s.triple && !change && s.delims.stop == CLOSE
  }

  function TagText(s: Spelling, change: bool): Bytes {
    s.delims.start + (if s.triple then BRACE else []) + s.raw + s.delims.stop
    + (if ExtraBrace(s, change) then CLOSING_BRACE else [])
  }

  function KindOf(sigil: byte): Type {
    if sigil == '^' as int then TypeNegate
    else if sigil == '#' as int then TypeSection
    else if sigil == '/' as int then TypeStop
    else if sigil == '!' as int then TypeComment
    else if sigil == '>' as int then TypePartial
    else TypeVariable
  }

  /** A variable is escaped when an odd number of `&`, triple braces and escaping by default apply. */
  function EscapeFlag(ampersand: bool, triple: bool, escapeByDefault: bool): int {
    if (ampersand != triple) != escapeByDefault then FLAG_ESCAPE else FLAG_NONE
  }

  function ChangeOf(text: Bytes, maxDelimiterBytes: nat): Result<Head>
    requires text != []
  {
    if text[|text| - 1] != EQUALS then Err(DelimiterUnclosed)
    else
      var words := Words(Trim(text, WHITESPACE + [EQUALS]), WHITESPACE, 0);
      if |words| != 2 then Err(DelimiterFormat)
      else if |words[0]| > maxDelimiterBytes || |words[1]| > maxDelimiterBytes then Err(DelimiterSize)
      else Ok(Head(TypeVariable, FLAG_NONE, [], Some(Delims(words[0], words[1]))))
  }

  function Classify(raw: Bytes, triple: bool, escapeByDefault: bool, maxDelimiterBytes: nat): Result<Head> {
    var text := Trim(raw, WHITESPACE);
    if text == [] then Err(TagEmpty)
    else if text[0] == EQUALS then ChangeOf(text, maxDelimiterBytes)
    else
      var kind, ampersand := KindOf(text[0]), text[0] == '&' as int;
      var name := if kind.TypeVariable? && !ampersand then text else Trim(text[1..], WHITESPACE);
      Ok(Head(kind, if kind.TypeVariable? then EscapeFlag(ampersand, triple, escapeByDefault) else FLAG_NONE, name, None))
  }

  predicate IsStandaloneType(t: Type) {
    t.TypeSection? || t.TypeNegate? || t.TypeStop? || t.TypeComment? || t.TypePartial?
  }

  predicate Opens(t: Type) {
    t.TypeSection? || t.TypeNegate?
  }

  // ---- The nodes of a tree of pieces --------------------------------------------------------------

  function Leaf(kind: Type, flags: int, data: Bytes): Node {
    Node(kind, flags, Some(data), [], Null, None, None, None)
  }

  /** A section keeps its delimiters and the source between its two tags. */
  function BlockNode(head: Head, delims: Delims, children: seq<Node>, source: Option<Source>): Node {
    var section := head.kind.TypeSection?;
    Node(head.kind, head.flags, Some(head.name), children, Null, if section then Some(delims.start) else None,
         if section then Some(delims.stop) else None, if section then source else None)
  }

  function RootNode(children: seq<Node>): Node {
    Node(TypeRoot, FLAG_NONE, None, children, Null, None, None, None)
  }

  /** The positions that nodes are made from are in order and within the text. */
  predicate Placed(item: Item, tmpl: Bytes) {
    match item
    case Literal(_, _, from, to) => from <= to <= |tmpl|
    case Tag(_, _, _, _) => true
    case Block(_, _, _, body, close, _, items) =>
      body <= close <= |tmpl| && forall i :: 0 <= i < |items| ==> Placed(items[i], tmpl)
  }

  function Erase(item: Item, tmpl: Bytes, buffer: nat): seq<Node>
    requires Placed(item, tmpl)
  {
    match item
    case Literal(flags, escaped, from, to) =>
      var text := tmpl[from..to];
      [Leaf(TypeOutput, flags, if escaped then Escaped(text) else text)]
    case Tag(head, _, _, _) => if head.change.Some? then [] else [Leaf(head.kind, head.flags, head.name)]
    case Block(head, spelling, _, body, close, _, items) =>
      [BlockNode(head, spelling.delims, EraseAll(items, tmpl, buffer), Some(SourceSlice(buffer, tmpl, body, close - body)))]
  }

  predicate AllPlaced(items: seq<Item>, tmpl: Bytes) {
    forall i :: 0 <= i < |items| ==> Placed(items[i], tmpl)
  }

  function EraseAll(items: seq<Item>, tmpl: Bytes, buffer: nat): seq<Node>
    requires AllPlaced(items, tmpl)
  {
    if items == [] then [] else Erase(items[0], tmpl, buffer) + EraseAll(items[1..], tmpl, buffer)
  }

  lemma {:induction false} EraseSnoc(items: seq<Item>, item: Item, tmpl: Bytes, buffer: nat)
    requires AllPlaced(items, tmpl) && Placed(item, tmpl)
    ensures AllPlaced(items + [item], tmpl)
    ensures EraseAll(items + [item], tmpl, buffer) == EraseAll(items, tmpl, buffer) + Erase(item, tmpl, buffer)
  {
    if items == [] {
      assert items + [item] == [item];
      assert [item][1..] == [];
    } else {
      assert (items + [item])[1..] == items[1..] + [item];
      EraseSnoc(items[1..], item, tmpl, buffer);
    }
  }
}
