/**
 * What the primitive readers and the string reader produce from a byte
 * source at a given offset: a value or an error chain, and the offset after
 * the read. Also the shapes of the error chains each reader can produce.
 */
module Fields {
  import opened Wrappers
  import opened Wire
  import opened Errors
  import opened Descriptor

  /** The outcome of decoding one field and the offset reached. */
  datatype Parsed<T> = Parsed(result: Result<T, Error>, next: nat)

  /** What a reader stores in a non-NULL `error_t *`: the error, or NULL on success. */
  function ErrorOf<T>(r: Result<T, Error>): Option<Error>
  {
    if r.Err? then Some(r.error) else None
  }

  /** The failure of a composite field, wrapped in an unmarshal error of sub-kind `t`. */
  function Wrap<T, U>(t: UnmarshalType, inner: Parsed<U>): Parsed<T>
    requires inner.result.Err?
  {
    Parsed(Err(Error(Unmarshal(t), Some(inner.result.error))), inner.next)
  }

  /** The length prefix that stands for a NULL string. */
  const NoString: uint32 := 0xFFFF_FFFF

  // The error shapes of the readers.

  /** A read that failed in the OS, or that was short. */
  predicate PrimitiveError(e: Error)
  {
    e.prev == None && (e.kind.Errno? || e.kind == Read(ReadEof))
  }

  /** A string whose length prefix or body could not be read. */
  predicate StringError(e: Error)
  {
    e.kind == Read(ReadChildError) && e.prev.Some? && PrimitiveError(e.prev.value)
  }

  /** An OS error at the bottom of a chain is the descriptor's own error number. */
  predicate Explained(src: Source, e: Error)
  {
    Root(e).kind.Errno? ==> src.fault.Some? && Root(e).kind.number == src.fault.value.number
  }

  /** keystore_read_bytes: exactly `n` bytes, or an errno error, or an end-of-file error. */
  function FixedBytes(src: Source, pos: nat, n: nat): (p: Parsed<seq<byte>>)
    ensures FaultsAt(src, pos) ==>
              p == Parsed(Err(Error(Errno(src.fault.value.number), None)), pos)
    ensures !FaultsAt(src, pos) && n <= |Remaining(src, pos)| ==>
              p == Parsed(Ok(Remaining(src, pos)[..n]), pos + n)
    ensures !FaultsAt(src, pos) && |Remaining(src, pos)| < n ==>
              p == Parsed(Err(Error(Read(ReadEof), None)), pos + |Remaining(src, pos)|)
    ensures p.result.Ok? ==> |p.result.value| == n && p.next == pos + n
    ensures p.result.Ok? ==> p.result.value == Received(SysRead(src, pos, n))
    ensures p.result.Err? ==> PrimitiveError(p.result.error) && Explained(src, p.result.error)
  {
    match SysRead(src, pos, n)
    case Failed(e) => Parsed(Err(Error(Errno(e), None)), pos)
    case Transferred(b) =>
      if |b| != n then Parsed(Err(Error(Read(ReadEof), None)), pos + |b|)
      else Parsed(Ok(b), pos + n)
  }

  /** keystore_read_uint8/16/32/64: the big-endian value of the next `width` bytes. */
  function Unsigned(src: Source, pos: nat, width: nat): (p: Parsed<nat>)
    ensures p.next == FixedBytes(src, pos, width).next
    ensures p.result.Ok? <==> FixedBytes(src, pos, width).result.Ok?
    ensures p.result.Ok? ==>
              && p.result.value == BigEndian(FixedBytes(src, pos, width).result.value)
              && p.result.value < Pow256(width)
    ensures p.result.Err? ==> p.result.error == FixedBytes(src, pos, width).result.error
  {
    var b := FixedBytes(src, pos, width);
    match b.result
    case Ok(bytes) => Parsed(Ok(BigEndian(bytes)), b.next)
    case Err(e) => Parsed(Err(e), b.next)
  }

  /**
   * The value keystore_read_uintN returns whatever happened: the bytes the read
   * transferred, zero-filled to the width, taken big-endian. On success it is
   * the decoded value.
   */
  function ReturnedValue(src: Source, pos: nat, width: nat): (v: nat)
    ensures v < Pow256(width)
    ensures Unsigned(src, pos, width).result.Ok? ==> v == Unsigned(src, pos, width).result.value
  {
    var got := Received(SysRead(src, pos, width));
    var filled := got + seq(width - |got|, _ => 0);
    assert FixedBytes(src, pos, width).result.Ok? ==> filled == got;
    BigEndian(filled)
  }

  /**
   * keystore_read_string: a 32-bit length, then that many bytes. The length
   * NoString yields "no string" after consuming only the prefix. Either
   * failure is wrapped in a read error of sub-kind CHILD_ERROR.
   */
  function LengthPrefixed(src: Source, pos: nat): (p: Parsed<Option<seq<byte>>>)
    ensures pos <= p.next
    ensures Unsigned(src, pos, 4).result == Ok(NoString as nat) ==> p == Parsed(Ok(None), pos + 4)
    ensures p.result.Ok? && p.result.value.Some? ==>
              var size := Unsigned(src, pos, 4);
              && size.result.Ok?
              && size.result.value != NoString as nat
              && |p.result.value.value| == size.result.value <= |Remaining(src, pos + 4)|
              && p.result.value.value == Remaining(src, pos + 4)[..size.result.value]
              && p.next == pos + 4 + size.result.value
    ensures p.result.Err? ==> StringError(p.result.error) && Explained(src, p.result.error)
  {
    var size := Unsigned(src, pos, 4);
    if size.result.Err? then
      Parsed(Err(Error(Read(ReadChildError), Some(size.result.error))), size.next)
    else if size.result.value == NoString as nat then
      Parsed(Ok(None), size.next)
    else
      var body := FixedBytes(src, size.next, size.result.value);
      if body.result.Err? then
        Parsed(Err(Error(Read(ReadChildError), Some(body.result.error))), body.next)
      else
        Parsed(Ok(Some(body.result.value)), body.next)
  }

  /**
   * The cause inside a failed string read: the length prefix's own error when
   * the prefix could not be read, otherwise the error of the body's read.
   */
  lemma StringFailureCause(src: Source, pos: nat)
    requires LengthPrefixed(src, pos).result.Err?
    ensures var size := Unsigned(src, pos, 4);
            var cause := LengthPrefixed(src, pos).result.error.prev;
            if size.result.Err? then
              cause == Some(size.result.error) && LengthPrefixed(src, pos).next == size.next
            else
              var body := FixedBytes(src, pos + 4, size.result.value);
              && size.result.value != NoString as nat
              && body.result.Err?
              && cause == Some(body.result.error)
              && LengthPrefixed(src, pos).next == body.next
  {
  }
}
