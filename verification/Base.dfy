/** Bytes, optional values and the failure types shared by every module. */
module Base {

  type byte = i: int | 0 <= i < 256

  type Bytes = seq<byte>

  datatype Option<+T> = None | Some(value: T)

  /** The exceptions the program raises, one for each message. */
  datatype Error =
    // template reconstruction
    | TemplateNestingLimit | TemplateNodeLimit | TemplateSizeLimit | NullChild | NodeWithoutData
    // legacy serialized form
    | SerialNestingLimit | SerialNodeLimit | SerialPartLimit | SerialSizeLimit | SerialShape | SerialDelimiters
    | SerialMarker | SerialChildCount | SerialDataSize | SerialBodySize | NullSerialChild | SerialSource
    | TruncatedHeader | SerialMagic | TruncatedData | SerialTerminator | TruncatedChildren | SerialChildSize
    | TrailingData
    // archive
    | ArchiveHeader | ArchiveVersion | ArchiveNodeLimit | ArchiveLength | ArchiveStringLimit | ArchiveRoot | RootSibling
    | StringRange | EmptyPartialName | PartialOrder | UnreachableNode | PartialRoot | PartialSibling | NodeIndex
    | ArchiveNesting | NotDisjoint | ArchiveType | ArchiveFlags | ArchiveMarker | PresenceBits | ReservedBytes
    | ArchiveData | AbsentData | ArchiveChildren | ArchiveDelimiters | ArchiveOriginal | PartsPerNode | PartsTotal
    | ChildIndex | SiblingIndex | ArchiveBytesLimit | StringFormat | NullArchiveChild | PartialFormat | NodeFormat
    | ContainerNode | FlagsFormat | SerializerWrite | SizeChanged
    // rendering
    | RenderNesting | RenderVisits | RenderOutput | EmptyTreeNode | InvalidIndentation | EmptyData | EmptyTag
    | EmptyContainer | UnknownNodeType | AlreadyRendering | EmptyTree | MissingOutput | InactiveContext | CallbackThrew
    // tokenizing
    | EmptyDelimiter | InputSize | DelimiterSize | TagEmpty | DelimiterUnclosed | DelimiterFormat | StandaloneState
    | ParseNodes | ParseNesting | ExtraClosing | MismatchedClosing | MissingBrace | TagSize | UnclosedTag
    | UnclosedSection
    // JSON data
    | JsonNesting | JsonNodes | JsonStrings | JsonEntries | JsonInteger | JsonFloat | JsonInvalid

  /** A value, or the exception the program raises instead. */
  datatype Result<+T> = Ok(value: T) | Err(error: Error) {
    predicate IsFailure() {
      Err?
    }

    function PropagateFailure<U>(): Result<U>
      requires Err?
    {
      Err(error)
    }

    function Extract(): T
      requires Ok?
    {
      value
    }
  }

  /** Normal completion of a procedure, or the exception it raises. */
  datatype Outcome = Pass | Fail(error: Error) {
    predicate IsFailure() {
      Fail?
    }

    function PropagateFailure(): Outcome
      requires Fail?
    {
      this
    }
  }

  const MAX_UINT32: nat := 0xffff_ffff

  function Max(a: nat, b: nat): nat {
    if a >= b then a else b
  }

  /** The delimiters of Mustache. */
  const OPEN: Bytes := ['{' as int, '{' as int]
  const CLOSE: Bytes := ['}' as int, '}' as int]

  const SPACE: byte := 0x20
  const TAB: byte := 0x09
  const NEWLINE: byte := 0x0A
  const RETURN: byte := 0x0D
  const DOT: byte := '.' as int

  /** A space or a tab: the only bytes that indentation consists of. */
  predicate IsIndentByte(b: byte) {
    b == SPACE || b == TAB
  }

  predicate IsIndentation(s: Bytes) {
    forall i :: 0 <= i < |s| ==> IsIndentByte(s[i])
  }

  /** The bit of weight m (a power of two) in the two's complement form of v. */
  predicate Bit(v: int, m: int)
    requires m > 0
  {
    (v / m) % 2 == 1
  }

  function Count(s: Bytes, b: byte): nat {
    if s == [] then 0 else (if s[0] == b then 1 else 0) + Count(s[1..], b)
  }

  /** A window that holds three pieces one after the other. */
  lemma {:induction false} Window(bs: Bytes, pos: nat, a: Bytes, b: Bytes, c: Bytes)
    requires pos + |a| + |b| + |c| <= |bs| && bs[pos..pos + |a| + |b| + |c|] == a + b + c
    ensures bs[pos..pos + |a|] == a
    ensures bs[pos + |a|..pos + |a| + |b|] == b
    ensures bs[pos + |a| + |b|..pos + |a| + |b| + |c|] == c
  {
    var w := a + b + c;
    SubWindow(bs, pos, w, 0, |a|);
    SubWindow(bs, pos, w, |a|, |a| + |b|);
    SubWindow(bs, pos, w, |a| + |b|, |w|);
    assert w[..|a|] == a && w[|a|..|a| + |b|] == b && w[|a| + |b|..] == c;
  }

  lemma {:induction false} SubWindow(bs: Bytes, pos: nat, w: Bytes, x: nat, y: nat)
    requires pos + |w| <= |bs| && bs[pos..pos + |w|] == w && x <= y <= |w|
    ensures bs[pos + x..pos + y] == w[x..y]
  {
    forall k | 0 <= k < y - x
      ensures bs[pos + x..pos + y][k] == w[x..y][k]
    {
      assert w[x + k] == bs[pos..pos + |w|][x + k];
    }
  }
}
