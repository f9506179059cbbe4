/**
 * keystore_read_uint8/16/32/64, keystore_read_bytes and keystore_read_string:
 * each reads from the descriptor, advancing its offset, and reports through
 * the `error_t *` it is given, which may be NULL.
 */
module Readers {
  import opened Wrappers
  import opened Wire
  import opened Errors
  import opened Descriptor
  import opened Fields
  import opened Records
  import opened Memory

  /** The body the four fixed-width readers share: read `width` bytes into a zeroed buffer. */
  method ReadUnsigned(fd: Fd, width: nat, err: ErrorSlot?) returns (value: nat)
    modifies fd, err
    ensures fd.pos == Unsigned(fd.src, old(fd.pos), width).next
    ensures value == ReturnedValue(fd.src, old(fd.pos), width)
    ensures err != null ==> err.value == ErrorOf(Unsigned(fd.src, old(fd.pos), width).result)
  {
    ghost var t := SysRead(fd.src, fd.pos, width);
    var readBuf := new byte[width](_ => 0);
    ghost var zeros := readBuf[..];
    var readSize, errno := fd.Read(readBuf, width);
    assert readBuf[..] == Received(t) + seq(width - |Received(t)|, _ => 0) by {
      assert zeros[|Received(t)|..] == seq(width - |Received(t)|, _ => 0);
    }
    value := BigEndian(readBuf[..]);
    if err == null {
      return;
    }
    if readSize == -1 {
      err.value := Some(Error(Errno(errno), None));
    } else if readSize != width {
      err.value := Some(Error(Read(ReadEof), None));
    } else {
      err.value := None;
    }
  }

  method ReadUint8(fd: Fd, err: ErrorSlot?) returns (value: byte)
    modifies fd, err
    ensures fd.pos == Unsigned(fd.src, old(fd.pos), 1).next
    ensures value == ReturnedValue(fd.src, old(fd.pos), 1)
    ensures err != null ==> err.value == ErrorOf(Unsigned(fd.src, old(fd.pos), 1).result)
  {
    var v := ReadUnsigned(fd, 1, err);
    value := v as byte;
  }

  method ReadUint16(fd: Fd, err: ErrorSlot?) returns (value: uint16)
    modifies fd, err
    ensures fd.pos == Unsigned(fd.src, old(fd.pos), 2).next
    ensures value == ReturnedValue(fd.src, old(fd.pos), 2)
    ensures err != null ==> err.value == ErrorOf(Unsigned(fd.src, old(fd.pos), 2).result)
  {
    var v := ReadUnsigned(fd, 2, err);
    value := v as uint16;
  }

  method ReadUint32(fd: Fd, err: ErrorSlot?) returns (value: uint32)
    modifies fd, err
    ensures fd.pos == Unsigned(fd.src, old(fd.pos), 4).next
    ensures value == ReturnedValue(fd.src, old(fd.pos), 4)
    ensures err != null ==> err.value == ErrorOf(Unsigned(fd.src, old(fd.pos), 4).result)
  {
    var v := ReadUnsigned(fd, 4, err);
    value := v as uint32;
  }

  method ReadUint64(fd: Fd, err: ErrorSlot?) returns (value: uint64)
    modifies fd, err
    ensures fd.pos == Unsigned(fd.src, old(fd.pos), 8).next
    ensures value == ReturnedValue(fd.src, old(fd.pos), 8)
    ensures err != null ==> err.value == ErrorOf(Unsigned(fd.src, old(fd.pos), 8).result)
  {
    var v := ReadUnsigned(fd, 8, err);
    value := v as uint64;
  }

  /** Reads `size` bytes into the front of `buf`; on a short read the bytes that came are there too. */
  method ReadBytes(fd: Fd, buf: array<byte>, size: uint32, err: ErrorSlot?)
    requires size as int <= buf.Length
    modifies fd, buf, err
    ensures var got := Received(SysRead(fd.src, old(fd.pos), size as int));
            buf[..] == got + old(buf[..])[|got|..]
    ensures fd.pos == FixedBytes(fd.src, old(fd.pos), size as int).next
    ensures err != null ==> err.value == ErrorOf(FixedBytes(fd.src, old(fd.pos), size as int).result)
  {
    var readSize, errno := fd.Read(buf, size as int);
    if err == null {
      return;
    }
    if readSize == -1 {
      err.value := Some(Error(Errno(errno), None));
    } else if readSize != size as int {
      err.value := Some(Error(Read(ReadEof), None));
    } else {
      err.value := None;
    }
  }

  /**
   * Reads a length-prefixed string into a fresh block, NUL-terminated. The
   * result owns one block exactly when it is a string; every failure has
   * already released it.
   */
  method ReadString(fd: Fd, err: ErrorSlot?, heap: Heap) returns (s: Option<Bytes>)
    modifies fd, err, heap
    ensures var p := LengthPrefixed(fd.src, old(fd.pos));
            && fd.pos == p.next
            && s == (if p.result.Ok? then p.result.value else None)
            && (err != null ==> err.value == ErrorOf(p.result))
            && heap.live == old(heap.live) + (if p.result.Ok? then StringBlocks(p.result.value) else 0)
  {
    var sizeErr := new ErrorSlot();
    var size := ReadUint32(fd, sizeErr);
    if sizeErr.value != None {
      if err != null {
        err.value := Some(Error(Read(ReadChildError), sizeErr.value));
      }
      return None;
    }

    if size == NoString {
      if err != null {
        err.value := None;
      }
      return None;
    }

    heap.Malloc();
    var buffer := new byte[size as int + 1];
    var stringErr := new ErrorSlot();
    ReadBytes(fd, buffer, size, stringErr);

    if stringErr.value != None {
      if err != null {
        err.value := Some(Error(Read(ReadChildError), stringErr.value));
      }
      heap.Free(true);
      return None;
    }

    buffer[size] := 0;

    if err != null {
      err.value := None;
    }
    s := Some(buffer[..size]);
  }

  /** Whether the next length prefix is the NULL-string marker. */
  predicate NoStringAhead(src: Source, pos: nat)
  {
    Unsigned(src, pos, 4).result == Ok(NoString as nat)
  }

  /**
   * keystore_read_string as written: on the NULL-string marker it stores
   * through `err` without checking it for NULL, so a NULL `err` is undefined
   * behaviour there. The precondition states what the code demands.
   */
  method ReadStringAsWritten(fd: Fd, err: ErrorSlot?, heap: Heap) returns (s: Option<Bytes>)
    requires err != null || !NoStringAhead(fd.src, fd.pos)
    modifies fd, err, heap
    ensures var p := LengthPrefixed(fd.src, old(fd.pos));
            && fd.pos == p.next
            && s == (if p.result.Ok? then p.result.value else None)
            && (err != null ==> err.value == ErrorOf(p.result))
            && heap.live == old(heap.live) + (if p.result.Ok? then StringBlocks(p.result.value) else 0)
  {
    var sizeErr := new ErrorSlot();
    var size := ReadUint32(fd, sizeErr);
    if sizeErr.value != None {
      if err != null {
        err.value := Some(Error(Read(ReadChildError), sizeErr.value));
      }
      return None;
    }

    if size == NoString {
      err.value := None;
      return None;
    }

    heap.Malloc();
    var buffer := new byte[size as int + 1];
    var stringErr := new ErrorSlot();
    ReadBytes(fd, buffer, size, stringErr);

    if stringErr.value != None {
      if err != null {
        err.value := Some(Error(Read(ReadChildError), stringErr.value));
      }
      heap.Free(true);
      return None;
    }

    buffer[size] := 0;

    if err != null {
      err.value := None;
    }
    s := Some(buffer[..size]);
  }
}
