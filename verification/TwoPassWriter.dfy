/** The two passes of the archive serializer: one that only measures, one that fills a bounded buffer. */
module TwoPassWriter {
  import opened Base

  /** The largest value of the serializer's signed 64-bit offsets. */
  const MAX_OFFSET: nat := 0x7fff_ffff_ffff_ffff

  /** One call of the serializer on its target. */
  datatype Write =
    | Append(bytes: Bytes, alignment: nat)
    | Patch(position: nat, bytes: Bytes)

  /** The least offset not below `size` that satisfies the alignment. */
  function AlignUp(size: nat, alignment: nat): nat {
    if alignment <= 1 || size % alignment == 0 then size else size + (alignment - size % alignment)
  }

  lemma {:induction false} AlignUpIsLeast(size: nat, alignment: nat, offset: nat)
    requires alignment >= 1 && size <= offset && offset % alignment == 0
    ensures AlignUp(size, alignment) % alignment == 0 && size <= AlignUp(size, alignment) <= offset
  {
    if alignment > 1 && size % alignment != 0 {
      var k, q := size / alignment, offset / alignment;
      assert size == k * alignment + size % alignment && offset == q * alignment;
      NextMultiple(k, alignment);
      if q <= k {
        Multiples(q, k, alignment);
        assert false;
      }
      Multiples(k + 1, q, alignment);
    }
  }

  lemma {:induction false} NextMultiple(k: nat, alignment: nat)
    requires alignment >= 1
    ensures (k * alignment + alignment) % alignment == 0 && k * alignment + alignment == (k + 1) * alignment
  {
    MultipleHasNoRemainder(k + 1, alignment);
  }

  lemma {:induction false} MultipleHasNoRemainder(k: nat, alignment: nat)
    requires alignment >= 1
    ensures k * alignment % alignment == 0
  {
    var r, q := k * alignment % alignment, k * alignment / alignment;
    assert k * alignment == q * alignment + r;
    if q < k {
      Multiples(q + 1, k, alignment);
    } else if q > k {
      Multiples(k + 1, q, alignment);
    }
  }

  lemma {:induction false} Multiples(a: nat, b: nat, k: nat)
    requires a <= b
    ensures a * k <= b * k
  {
    assert b * k == a * k + (b - a) * k;
  }

  // ---- What the writes amount to ------------------------------------------------------------------

  /** The size after one write, or its failure. */
  function SizeAfter(w: Write, size: nat, maximum: nat): Result<nat> {
    match w
    case Append(bytes, alignment) =>
      var start := AlignUp(size, alignment);
      if start + |bytes| > maximum || start > MAX_OFFSET then Err(ArchiveBytesLimit) else Ok(start + |bytes|)
    case Patch(position, bytes) =>
      if position + |bytes| > size then Err(SerializerWrite) else Ok(size)
  }

  function SizeOf(ws: seq<Write>, size: nat, maximum: nat): Result<nat>
    decreases |ws|
  {
    if ws == [] then Ok(size)
    else
      var next :- SizeAfter(ws[0], size, maximum);
      SizeOf(ws[1..], next, maximum)
  }

  function Zeros(n: nat): Bytes {
    seq(n, _ => 0)
  }

  /** The buffer after one write that does not fail. */
  function Image(w: Write, buffer: Bytes): Bytes
    requires w.Patch? ==> w.position + |w.bytes| <= |buffer|
  {
    match w
    case Append(bytes, alignment) => buffer + Zeros(AlignUp(|buffer|, alignment) - |buffer|) + bytes
    case Patch(position, bytes) => buffer[..position] + bytes + buffer[position + |bytes|..]
  }

  function Images(ws: seq<Write>, buffer: Bytes, maximum: nat): Bytes
    requires SizeOf(ws, |buffer|, maximum).Ok?
    decreases |ws|
  {
    if ws == [] then buffer else Images(ws[1..], Image(ws[0], buffer), maximum)
  }

  // ---- The two targets ----------------------------------------------------------------------------

  class SizeCounter {
    const maximum: nat
    var size: nat

    constructor (maximum: nat)
      ensures this.maximum == maximum && size == 0
    {
      this.maximum, size := maximum, 0;
    }

    method AlignedSize(alignment: nat) returns (r: Result<nat>)
      requires size <= maximum
      ensures r == if AlignUp(size, alignment) <= maximum then Ok(AlignUp(size, alignment)) else Err(ArchiveBytesLimit)
    {
      if alignment <= 1 {
        return Ok(size);
      }
      var remainder := size % alignment;
      if remainder == 0 {
        return Ok(size);
      }
      var padding := alignment - remainder;
      if size > maximum || padding > maximum - size {
        return Err(ArchiveBytesLimit);
      }
      return Ok(size + padding);
    }

    method Append(bytes: nat, alignment: nat) returns (r: Result<nat>)
      requires size <= maximum
      modifies this`size
      ensures forall w: Write :: w.Append? && |w.bytes| == bytes && w.alignment == alignment ==>
                r == (match SizeAfter(w, old(size), maximum)
                      case Ok(_) => Ok(AlignUp(old(size), alignment))
                      case Err(e) => Err(e))
      ensures size == if r.Ok? then r.value + bytes else old(size)
      ensures size <= maximum
    {
      var start :- AlignedSize(alignment);
      if start > maximum || bytes > maximum - start || start > MAX_OFFSET {
        return Err(ArchiveBytesLimit);
      }
      size := start + bytes;
      return Ok(start);
    }

    method Patch(position: nat, bytes: nat) returns (r: Outcome)
      ensures r == if position + bytes <= size then Pass else Fail(SerializerWrite)
    {
      if position > size || bytes > size - position {
        return Fail(SerializerWrite);
      }
      return Pass;
    }
  }

  class BoundedBuffer {
    const maximum: nat
    const expected: nat
    var bytes: Bytes

    constructor (maximum: nat, expected: nat)
      requires expected <= maximum
      ensures this.maximum == maximum && this.expected == expected && bytes == []
    {
      this.maximum, this.expected, bytes := maximum, expected, [];
    }

    method AlignedSize(alignment: nat) returns (r: Result<nat>)
      requires |bytes| <= maximum
      ensures r == if AlignUp(|bytes|, alignment) <= maximum then Ok(AlignUp(|bytes|, alignment))
                   else Err(ArchiveBytesLimit)
    {
      if alignment <= 1 {
        return Ok(|bytes|);
      }
      var remainder := |bytes| % alignment;
      if remainder == 0 {
        return Ok(|bytes|);
      }
      var padding := alignment - remainder;
      if |bytes| > maximum || padding > maximum - |bytes| {
        return Err(ArchiveBytesLimit);
      }
      return Ok(|bytes| + padding);
    }

    method Append(source: Bytes, alignment: nat) returns (r: Result<nat>)
      requires |bytes| <= maximum
      modifies this`bytes
      ensures var w := Write.Append(source, alignment);
              match SizeAfter(w, |old(bytes)|, maximum)
              case Ok(_) => r == Ok(AlignUp(|old(bytes)|, alignment)) && bytes == Image(w, old(bytes)) && |bytes| <= maximum
              case Err(e) => r == Err(e) && bytes == old(bytes)
    {
      var start :- AlignedSize(alignment);
      if start > maximum || |source| > maximum - start || start > MAX_OFFSET {
        return Err(ArchiveBytesLimit);
      }
      bytes := bytes + Zeros(start - |bytes|) + source;
      return Ok(start);
    }

    method Patch(position: nat, value: Bytes) returns (r: Outcome)
      modifies this`bytes
      ensures if position + |value| <= |old(bytes)| then r.Pass? && bytes == Image(Write.Patch(position, value), old(bytes))
              else r == Fail(SerializerWrite) && bytes == old(bytes)
    {
      if position > |bytes| || |value| > |bytes| - position {
        return Fail(SerializerWrite);
      }
      bytes := bytes[..position] + value + bytes[position + |value|..];
      return Pass;
    }

    method Release() returns (r: Result<Bytes>)
      ensures r == if |bytes| == expected then Ok(bytes) else Err(SizeChanged)
    {
      if |bytes| != expected {
        return Err(SizeChanged);
      }
      return Ok(bytes);
    }
  }

  // ---- The two passes -------------------------------------------------------------------------------

  /** The second pass makes the same calls with other contents: the size field has been filled in between. */
  predicate SameCalls(ws: seq<Write>, vs: seq<Write>) {
    |ws| == |vs| && forall i :: 0 <= i < |ws| ==> SameCall(ws[i], vs[i])
  }

  predicate SameCall(w: Write, v: Write) {
    w.Append? == v.Append? && |w.bytes| == |v.bytes|
    && (w.Append? ==> w.alignment == v.alignment) && (w.Patch? ==> w.position == v.position)
  }

  method Measure(ws: seq<Write>, maximum: nat) returns (r: Result<nat>)
    ensures r == SizeOf(ws, 0, maximum)
    ensures r.Ok? ==> r.value <= maximum
  {
    var counter := new SizeCounter(maximum);
    var i := 0;
    assert ws[0..] == ws;
    while i < |ws|
      invariant 0 <= i <= |ws| && counter.maximum == maximum && counter.size <= maximum
      invariant SizeOf(ws[i..], counter.size, maximum) == SizeOf(ws, 0, maximum)
      decreases |ws| - i
    {
      hide AlignUp;
      assert ws[i..][0] == ws[i] && ws[i..][1..] == ws[i + 1..];
      match ws[i] {
      case Append(bytes, alignment) =>
        var start :- counter.Append(|bytes|, alignment);
      case Patch(position, bytes) =>
        var patched := counter.Patch(position, |bytes|);
        if patched.Fail? {
          return Err(patched.error);
        }
      }
      i := i + 1;
    }
    return Ok(counter.size);
  }

  method Fill(ws: seq<Write>, maximum: nat, expected: nat) returns (r: Result<Bytes>)
    requires expected <= maximum
    ensures match SizeOf(ws, 0, maximum)
            case Ok(size) => r == if size == expected then Ok(Images(ws, [], maximum)) else Err(SizeChanged)
            case Err(e) => r == Err(e)
  {
    var buffer := new BoundedBuffer(maximum, expected);
    var i := 0;
    assert ws[0..] == ws;
    while i < |ws|
      invariant 0 <= i <= |ws| && buffer.maximum == maximum && buffer.expected == expected && |buffer.bytes| <= maximum
      invariant SizeOf(ws[i..], |buffer.bytes|, maximum) == SizeOf(ws, 0, maximum)
      invariant SizeOf(ws, 0, maximum).Ok? ==> Images(ws[i..], buffer.bytes, maximum) == Images(ws, [], maximum)
      decreases |ws| - i
    {
      hide AlignUp;
      assert ws[i..][0] == ws[i] && ws[i..][1..] == ws[i + 1..];
      match ws[i] {
      case Append(bytes, alignment) =>
        var start :- buffer.Append(bytes, alignment);
      case Patch(position, bytes) =>
        var patched := buffer.Patch(position, bytes);
        if patched.Fail? {
          return Err(patched.error);
        }
      }
      i := i + 1;
    }
    ImagesSize(ws, [], maximum);
    r := buffer.Release();
  }

  lemma {:induction false} ImagesSize(ws: seq<Write>, buffer: Bytes, maximum: nat)
    ensures SizeOf(ws, |buffer|, maximum).Ok? ==> |Images(ws, buffer, maximum)| == SizeOf(ws, |buffer|, maximum).value
    decreases |ws|
  {
    hide AlignUp;
    if ws != [] && SizeAfter(ws[0], |buffer|, maximum).Ok? {
      ImageSize(ws[0], buffer, maximum);
      ImagesSize(ws[1..], Image(ws[0], buffer), maximum);
    }
  }

  lemma {:induction false} ImageSize(w: Write, buffer: Bytes, maximum: nat)
    requires SizeAfter(w, |buffer|, maximum).Ok?
    ensures |Image(w, buffer)| == SizeAfter(w, |buffer|, maximum).value
  {
  }

  // ---- Main results -----------------------------------------------------------------------------------

  lemma {:induction false} SameSizes(ws: seq<Write>, vs: seq<Write>, size: nat, maximum: nat)
    requires SameCalls(ws, vs)
    ensures SizeOf(ws, size, maximum) == SizeOf(vs, size, maximum)
    decreases |ws|
  {
    hide AlignUp;
    if ws != [] {
      assert SameCall(ws[0], vs[0]);
      var next := SizeAfter(ws[0], size, maximum);
      if next.Ok? {
        forall i | 0 <= i < |ws[1..]|
          ensures SameCall(ws[1..][i], vs[1..][i])
        {
          assert SameCall(ws[i + 1], vs[i + 1]);
        }
        SameSizes(ws[1..], vs[1..], next.value, maximum);
      }
    }
  }

  /** Measuring and then filling: the buffer fails at the call at which the counter failed, or not at all, and the check
      of the final size cannot fail. */
  method WriteArchive(ws: seq<Write>, vs: seq<Write>, maximum: nat) returns (r: Result<Bytes>)
    requires SameCalls(ws, vs)
    ensures match SizeOf(ws, 0, maximum)
            case Ok(size) => SizeOf(vs, 0, maximum).Ok? && r == Ok(Images(vs, [], maximum)) && |r.value| == size <= maximum
            case Err(e) => r == Err(e)
  {
    var size :- Measure(ws, maximum);
    SameSizes(ws, vs, 0, maximum);
    ImagesSize(vs, [], maximum);
    r := Fill(vs, maximum, size);
  }

  /** The byte that the writes leave at p, if any of them covers p. */
  function Stored(ws: seq<Write>, size: nat, maximum: nat, p: nat): Option<byte>
    requires SizeOf(ws, size, maximum).Ok?
    decreases |ws|
  {
    if ws == [] then None
    else
      var later := Stored(ws[1..], SizeAfter(ws[0], size, maximum).value, maximum, p);
      if later.Some? then later
      else
        var from := if ws[0].Append? then AlignUp(size, ws[0].alignment) else ws[0].position;
        if from <= p < from + |ws[0].bytes| then Some(ws[0].bytes[p - from]) else None
  }

  /** Every byte of the result is the last one written there; alignment gaps are zero; what was there before and has not
      been patched stays. */
  lemma {:induction false} EveryByte(ws: seq<Write>, buffer: Bytes, maximum: nat, p: nat)
    requires SizeOf(ws, |buffer|, maximum).Ok?
    requires p < |Images(ws, buffer, maximum)|
    ensures Images(ws, buffer, maximum)[p]
         == if Stored(ws, |buffer|, maximum, p).Some? then Stored(ws, |buffer|, maximum, p).value
            else if p < |buffer| then buffer[p] else 0
    decreases |ws|
  {
    hide AlignUp;
    if ws != [] {
      var next := Image(ws[0], buffer);
      ImageSize(ws[0], buffer, maximum);
      EveryByte(ws[1..], next, maximum, p);
      ByteOfImage(ws[0], buffer, maximum, p);
    }
  }

  lemma {:induction false} ByteOfImage(w: Write, buffer: Bytes, maximum: nat, p: nat)
    requires SizeAfter(w, |buffer|, maximum).Ok?
    ensures var from := if w.Append? then AlignUp(|buffer|, w.alignment) else w.position;
            p < |Image(w, buffer)| ==>
              Image(w, buffer)[p] == if from <= p < from + |w.bytes| then w.bytes[p - from]
                                     else if p < |buffer| then buffer[p] else 0
  {
  }
}
