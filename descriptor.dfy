/**
 * The file descriptor the decoder reads from: a byte sequence with a file
 * offset, and read(2) over it. A descriptor may fail: from offset `at` on,
 * every read fails with the OS error number `number` (a closed or invalid
 * descriptor fails from offset 0). Otherwise a read of n bytes transfers
 * min(n, bytes left) bytes and advances the offset by that many.
 */
module Descriptor {
  import opened Wrappers
  import opened Wire

  datatype Fault = Fault(at: nat, number: int)

  datatype Source = Source(data: seq<byte>, fault: Option<Fault>)

  /** The outcome of one read(2) call: -1 with errno, or the bytes transferred. */
  datatype Transfer = Failed(number: int) | Transferred(bytes: seq<byte>)

  predicate FaultsAt(src: Source, pos: nat)
  {
    src.fault.Some? && src.fault.value.at <= pos
  }

  /** The bytes left after offset `pos`. */
  function Remaining(src: Source, pos: nat): seq<byte>
  {
    if pos <= |src.data| then src.data[pos..] else []
  }

  /** read(2) of `n` bytes at offset `pos`. */
  function SysRead(src: Source, pos: nat, n: nat): (t: Transfer)
    ensures t.Failed? <==> FaultsAt(src, pos)
    ensures t.Failed? ==> t.number == src.fault.value.number
    ensures t.Transferred? ==>
              && |t.bytes| <= n
              && |t.bytes| <= |Remaining(src, pos)|
              && (|t.bytes| < n <==> |Remaining(src, pos)| < n)
              && t.bytes == Remaining(src, pos)[..|t.bytes|]
  {
    if FaultsAt(src, pos) then Failed(src.fault.value.number)
    else
      var rest := Remaining(src, pos);
      Transferred(if |rest| < n then rest else rest[..n])
  }

  /** The bytes a read placed in the caller's buffer: none when it failed. */
  function Received(t: Transfer): seq<byte>
  {
    if t.Failed? then [] else t.bytes
  }

  /** An open file descriptor: what it reads from and its current offset. */
  class Fd {
    const src: Source
    var pos: nat

    constructor (src: Source)
      ensures this.src == src && pos == 0
    {
      this.src := src;
      pos := 0;
    }

    /**
     * read(fd, buf, n): returns -1 (and errno) or the number of bytes it
     * stored at the front of `buf`; the rest of `buf` is untouched.
     */
    method Read(buf: array<byte>, n: nat) returns (count: int, errno: int)
      requires n <= buf.Length
      modifies this, buf
      ensures var t := SysRead(src, old(pos), n);
              && (t.Failed? ==> count == -1 && errno == t.number)
              && (t.Transferred? ==> count == |t.bytes|)
              && pos == old(pos) + |Received(t)|
              && buf[..] == Received(t) + old(buf[..])[|Received(t)|..]
    {
      var t := SysRead(src, pos, n);
      match t
      case Failed(e) =>
        count, errno := -1, e;
      case Transferred(b) =>
        forall i | 0 <= i < |b| {
          buf[i] := b[i];
        }
        count, errno := |b|, 0;
        pos := pos + |b|;
    }
  }
}
