/**
 * keystore_attribute_unmarshal, keystore_keyring_item_unmarshal and
 * keyring_unmarshal: each reads through a local error slot, wraps a reader's
 * failure in an unmarshal error, releases what it had allocated, stores the
 * error in the caller's slot (when there is one) and returns the all-zero
 * structure. The labelled blocks stand for the `fail` and `fail_name` labels.
 */
module Unmarshal {
  import opened Wrappers
  import opened Wire
  import opened Errors
  import opened Descriptor
  import opened Fields
  import opened Records
  import opened Memory
  import opened Layout
  import opened Readers
  import opened Release

  /** A failing attribute stops the array: reading more attributes yields the same failure. */
  lemma {:induction false} AttributesFailureSticks(src: Source, pos: nat, k: nat, n: nat)
    requires k <= n
    requires DecodeAttributes(src, pos, k).result.Err?
    ensures DecodeAttributes(src, pos, n) == DecodeAttributes(src, pos, k)
    decreases n - k
  {
    if k < n {
      assert DecodeAttributes(src, pos, k + 1) == DecodeAttributes(src, pos, k);
      AttributesFailureSticks(src, pos, k + 1, n);
    }
  }

  /** A failing item stops the array likewise. */
  lemma {:induction false} ItemsFailureSticks(src: Source, pos: nat, k: nat, n: nat)
    requires k <= n
    requires DecodeItems(src, pos, k).result.Err?
    ensures DecodeItems(src, pos, n) == DecodeItems(src, pos, k)
    decreases n - k
  {
    if k < n {
      assert DecodeItems(src, pos, k + 1) == DecodeItems(src, pos, k);
      ItemsFailureSticks(src, pos, k + 1, n);
    }
  }

  /** The cleanup when an attribute fails: frees the first `n` attributes of the array, in place. */
  method FreeAttributes(heap: Heap, attributes: array<Attribute>, n: nat)
    requires n <= attributes.Length
    modifies heap, attributes
    ensures heap.live == old(heap.live) - AttributesBlocks(old(attributes[..n]))
    ensures forall j :: 0 <= j < n ==> AttributeBlocks(attributes[j]) == 0
    ensures attributes[n..] == old(attributes[n..])
  {
    ghost var owned := attributes[..n];
    var j := 0;
    while j < n
      invariant 0 <= j <= n
      invariant attributes[j..] == old(attributes[j..])
      invariant forall i :: 0 <= i < j ==> AttributeBlocks(attributes[i]) == 0
      invariant heap.live == old(heap.live) - AttributesBlocks(owned[..j])
    {
      assert owned[..j + 1][..j] == owned[..j];
      assert attributes[j] == old(attributes[j..])[0] == owned[j];
      ghost var after := attributes[j + 1..];
      var released := AttributeFree(heap, attributes[j]);
      attributes[j] := released;
      assert attributes[j + 1..] == after;
      j := j + 1;
    }
    assert owned[..j] == owned;
  }

  /** keystore_attribute_unmarshal, with the name released on every failure after it was read. */
  method AttributeUnmarshal(fd: Fd, err: ErrorSlot?, heap: Heap) returns (attribute: Attribute)
    modifies fd, err, heap
    ensures var p := DecodeAttribute(fd.src, old(fd.pos));
            && fd.pos == p.next
            && attribute == (if p.result.Ok? then p.result.value else ZeroAttribute)
            && (err != null ==> err.value == ErrorOf(p.result))
            && heap.live == old(heap.live) + (if p.result.Ok? then AttributeBlocks(p.result.value) else 0)
  {
    var localErr := new ErrorSlot();
    var name := ReadString(fd, localErr, heap);
    label fail: {
      if localErr.value != None {
        localErr.value := Some(Error(Unmarshal(UnmarshalReadError), localErr.value));
        break fail;
      }

      var tag := ReadUint32(fd, localErr);
      if localErr.value != None {
        localErr.value := Some(Error(Unmarshal(UnmarshalReadError), localErr.value));
        break fail;
      }

      var value: AttributeValue := Str(None);
      if tag == AttributeTypeString {
        var text := ReadString(fd, localErr, heap);
        value := Str(text);
      } else if tag == AttributeTypeUint32 {
        var word := ReadUint32(fd, localErr);
        value := U32(word);
      } else {
        localErr.value := Some(Error(Unmarshal(InvalidAttributeType), None));
      }
      if localErr.value != None {
        localErr.value := Some(Error(Unmarshal(UnmarshalReadError), localErr.value));
        break fail;
      }

      if err != null {
        err.value := None;
      }
      return Attribute(name, value);
    }
    heap.Free(name.Some?);
    if err != null {
      err.value := localErr.value;
    }
    return ZeroAttribute;
  }

  /** What keystore_attribute_unmarshal as written leaves allocated after a failure: the name it had read. */
  function NameLeak(src: Source, pos: nat): (n: nat)
    ensures n <= 1
    ensures DecodeAttribute(src, pos).result.Ok? ==> n == 0
    ensures n == 1 ==> LengthPrefixed(src, pos).result.Ok? && LengthPrefixed(src, pos).result.value.Some?
  {
    var name := LengthPrefixed(src, pos);
    if DecodeAttribute(src, pos).result.Err? && name.result.Ok? then StringBlocks(name.result.value) else 0
  }

  /**
   * keystore_attribute_unmarshal as written: the `fail` path does not free
   * the name, so a failure after a non-NULL name was read leaves one block
   * allocated that nothing points to.
   */
  method AttributeUnmarshalAsWritten(fd: Fd, err: ErrorSlot?, heap: Heap) returns (attribute: Attribute)
    modifies fd, err, heap
    ensures var p := DecodeAttribute(fd.src, old(fd.pos));
            && fd.pos == p.next
            && attribute == (if p.result.Ok? then p.result.value else ZeroAttribute)
            && (err != null ==> err.value == ErrorOf(p.result))
            && heap.live == old(heap.live) + (if p.result.Ok? then AttributeBlocks(p.result.value)
                                              else NameLeak(fd.src, old(fd.pos)))
  {
    var localErr := new ErrorSlot();
    var name := ReadString(fd, localErr, heap);
    label fail: {
      if localErr.value != None {
        localErr.value := Some(Error(Unmarshal(UnmarshalReadError), localErr.value));
        break fail;
      }

      var tag := ReadUint32(fd, localErr);
      if localErr.value != None {
        localErr.value := Some(Error(Unmarshal(UnmarshalReadError), localErr.value));
        break fail;
      }

      var value: AttributeValue := Str(None);
      if tag == AttributeTypeString {
        var text := ReadString(fd, localErr, heap);
        value := Str(text);
      } else if tag == AttributeTypeUint32 {
        var word := ReadUint32(fd, localErr);
        value := U32(word);
      } else {
        localErr.value := Some(Error(Unmarshal(InvalidAttributeType), None));
      }
      if localErr.value != None {
        localErr.value := Some(Error(Unmarshal(UnmarshalReadError), localErr.value));
        break fail;
      }

      if err != null {
        err.value := None;
      }
      return Attribute(name, value);
    }
    if err != null {
      err.value := localErr.value;
    }
    return ZeroAttribute;
  }

  /**
   * What the first `n` attributes leave allocated when the library runs the
   * as-written attribute reader: the name of the attribute that failed.
   */
  function AttributesLeak(src: Source, pos: nat, n: nat): (k: nat)
    ensures k <= 1
    ensures DecodeAttributes(src, pos, n).result.Ok? ==> k == 0
  {
    if n == 0 then 0
    else
      var front := DecodeAttributes(src, pos, n - 1);
      if front.result.Err? then AttributesLeak(src, pos, n - 1)
      else NameLeak(src, front.next)
  }

  /**
   * What keystore_keyring_item_unmarshal leaves allocated after a failure when
   * it calls the as-written attribute reader: the failing attribute's name.
   * Its own cleanup (the attributes before it and the array) is complete.
   */
  function ItemLeak(src: Source, pos: nat): (k: nat)
    ensures k <= 1
    ensures DecodeItem(src, pos).result.Ok? ==> k == 0
  {
    var id := Word(src, pos);
    var itemType := Word(src, id.next);
    var count := Word(src, itemType.next);
    if id.result.Err? || itemType.result.Err? || count.result.Err? then 0
    else AttributesLeak(src, count.next, count.result.value)
  }

  /**
   * The attribute loop of keystore_keyring_item_unmarshal: allocates the
   * array and reads `count` attributes into it. When one fails, the ones
   * before it and the array are freed and the failure is wrapped in a
   * CHILD_ERROR.
   */
  method ReadAttributeArray(fd: Fd, localErr: ErrorSlot, heap: Heap, count: uint32) returns (attributes: array<Attribute>)
    requires localErr.value == None
    modifies fd, localErr, heap
    ensures fresh(attributes) && attributes.Length == count as int
    ensures var p := DecodeAttributes(fd.src, old(fd.pos), count as int);
            && fd.pos == p.next
            && (p.result.Ok? ==> attributes[..] == p.result.value && localErr.value == None)
            && (p.result.Err? ==> localErr.value == Some(Error(Unmarshal(UnmarshalChildError), Some(p.result.error))))
            && heap.live == old(heap.live) + (if p.result.Ok? then 1 + AttributesBlocks(p.result.value) else 0)
  {
    ghost var src, start := fd.src, fd.pos;
    heap.Malloc();
    attributes := new Attribute[count as int];
    var i := 0;
    while i < count as int
      invariant 0 <= i <= count as int
      invariant DecodeAttributes(src, start, i) == Parsed(Ok(attributes[..i]), fd.pos)
      invariant localErr.value == None
      invariant heap.live == old(heap.live) + 1 + AttributesBlocks(attributes[..i])
    {
      ghost var before, posBefore := attributes[..i], fd.pos;
      var attribute := AttributeUnmarshal(fd, localErr, heap);
      attributes[i] := attribute;
      assert attributes[..i] == before;

      if localErr.value != None {
        assert DecodeAttributes(src, start, i + 1).result.Err?;
        AttributesFailureSticks(src, start, i + 1, count as int);
        FreeAttributes(heap, attributes, i);
        heap.Free(true);

        localErr.value := Some(Error(Unmarshal(UnmarshalChildError), localErr.value));
        return;
      }
      assert DecodeAttribute(src, posBefore) == Parsed(Ok(attribute), fd.pos);
      assert attributes[..i + 1] == before + [attribute];
      i := i + 1;
    }
    assert attributes[..i] == attributes[..];
  }

  /**
   * keystore_keyring_item_unmarshal. On success the caller's slot is left as
   * it was: the C code returns without storing NULL through `err`.
   */
  method ItemUnmarshal(fd: Fd, err: ErrorSlot?, heap: Heap) returns (item: Item)
    modifies fd, err, heap
    ensures var p := DecodeItem(fd.src, old(fd.pos));
            && fd.pos == p.next
            && item == (if p.result.Ok? then p.result.value else ZeroItem)
            && (err != null ==> err.value == (if p.result.Ok? then old(err.value) else Some(p.result.error)))
            && heap.live == old(heap.live) + (if p.result.Ok? then ItemBlocks(p.result.value) else 0)
  {
    var localErr := new ErrorSlot();
    ghost var src, pos0 := fd.src, fd.pos;
    label fail: {
      var id := ReadUint32(fd, localErr);
      ghost var idField := Word(src, pos0);
      if localErr.value != None {
        localErr.value := Some(Error(Unmarshal(UnmarshalReadError), localErr.value));
        assert DecodeItem(src, pos0) == Wrap(UnmarshalReadError, idField);
        break fail;
      }
      assert idField.result == Ok(id as nat);

      var itemType := ReadUint32(fd, localErr);
      ghost var typeField := Word(src, idField.next);
      if localErr.value != None {
        localErr.value := Some(Error(Unmarshal(UnmarshalReadError), localErr.value));
        assert DecodeItem(src, pos0) == Wrap(UnmarshalReadError, typeField);
        break fail;
      }
      assert typeField.result == Ok(itemType as nat);

      var count := ReadUint32(fd, localErr);
      ghost var countField := Word(src, typeField.next);
      if localErr.value != None {
        localErr.value := Some(Error(Unmarshal(UnmarshalReadError), localErr.value));
        assert DecodeItem(src, pos0) == Wrap(UnmarshalReadError, countField);
        break fail;
      }
      assert countField.result == Ok(count as nat);

      ghost var attributesField := DecodeAttributes(src, countField.next, count as int);
      var attributes := ReadAttributeArray(fd, localErr, heap, count);
      if localErr.value != None {
        assert DecodeItem(src, pos0) == Wrap(UnmarshalChildError, attributesField);
        break fail;
      }
      assert DecodeItem(src, pos0) == Parsed(Ok(Item(id, itemType, count, Some(attributes[..]))), fd.pos);
      return Item(id, itemType, count, Some(attributes[..]));
    }
    if err != null {
      err.value := localErr.value;
    }
    return ZeroItem;
  }

  /** The item loop of keyring_unmarshal, shaped like the attribute loop of an item. */
  method ReadItemArray(fd: Fd, localErr: ErrorSlot, heap: Heap, count: uint32) returns (items: array<Item>)
    requires localErr.value == None
    modifies fd, localErr, heap
    ensures fresh(items) && items.Length == count as int
    ensures var p := DecodeItems(fd.src, old(fd.pos), count as int);
            && fd.pos == p.next
            && (p.result.Ok? ==> items[..] == p.result.value && localErr.value == None)
            && (p.result.Err? ==> localErr.value == Some(Error(Unmarshal(UnmarshalChildError), Some(p.result.error))))
            && heap.live == old(heap.live) + (if p.result.Ok? then 1 + ItemsBlocks(p.result.value) else 0)
  {
    ghost var src, start := fd.src, fd.pos;
    heap.Malloc();
    items := new Item[count as int];
    var i := 0;
    while i < count as int
      invariant 0 <= i <= count as int
      invariant DecodeItems(src, start, i) == Parsed(Ok(items[..i]), fd.pos)
      invariant localErr.value == None
      invariant heap.live == old(heap.live) + 1 + ItemsBlocks(items[..i])
    {
      ghost var before, posBefore := items[..i], fd.pos;
      var item := ItemUnmarshal(fd, localErr, heap);
      items[i] := item;
      assert items[..i] == before;

      if localErr.value != None {
        assert DecodeItems(src, start, i + 1).result.Err?;
        ItemsFailureSticks(src, start, i + 1, count as int);
        FreeItems(heap, items, i);
        heap.Free(true);

        localErr.value := Some(Error(Unmarshal(UnmarshalChildError), localErr.value));
        return;
      }
      assert DecodeItem(src, posBefore) == Parsed(Ok(item), fd.pos);
      assert items[..i + 1] == before + [item];
      i := i + 1;
    }
    assert items[..i] == items[..];
  }

  /** The cleanup when an item fails: frees the first `n` items of the array, in place. */
  method FreeItems(heap: Heap, items: array<Item>, n: nat)
    requires n <= items.Length
    requires ItemsShaped(items[..n])
    modifies heap, items
    ensures heap.live == old(heap.live) - ItemsBlocks(old(items[..n]))
    ensures forall j :: 0 <= j < n ==> ItemBlocks(items[j]) == 0
    ensures items[n..] == old(items[n..])
  {
    ghost var owned := items[..n];
    var j := 0;
    while j < n
      invariant 0 <= j <= n
      invariant items[j..] == old(items[j..])
      invariant forall i :: 0 <= i < j ==> ItemBlocks(items[i]) == 0
      invariant heap.live == old(heap.live) - ItemsBlocks(owned[..j])
    {
      assert owned[..j + 1][..j] == owned[..j];
      assert items[j] == old(items[j..])[0] == owned[j];
      ghost var after := items[j + 1..];
      var released := ItemFree(heap, items[j]);
      items[j] := released;
      assert items[j + 1..] == after;
      j := j + 1;
    }
    assert owned[..j] == owned;
  }

  /** The version fields of keyring_unmarshal, each failure wrapped in a READ_ERROR. */
  method ReadVersion(fd: Fd, localErr: ErrorSlot) returns (version: Version)
    modifies fd, localErr
    ensures var p := DecodeVersion(fd.src, old(fd.pos));
            && fd.pos == p.next
            && localErr.value == ErrorOf(p.result)
            && (p.result.Ok? ==> version == p.result.value)
  {
    version := Version(0, 0, 0);
    var number := ReadUint16(fd, localErr);
    if localErr.value != None {
      localErr.value := Some(Error(Unmarshal(UnmarshalReadError), localErr.value));
      return;
    }
    var crypto := ReadUint8(fd, localErr);
    if localErr.value != None {
      localErr.value := Some(Error(Unmarshal(UnmarshalReadError), localErr.value));
      return;
    }
    var hash := ReadUint8(fd, localErr);
    if localErr.value != None {
      localErr.value := Some(Error(Unmarshal(UnmarshalReadError), localErr.value));
      return;
    }
    version := Version(number, crypto, hash);
  }

  /** ctime, mtime, flags, lock timeout and hash iterations, each failure wrapped in a READ_ERROR. */
  method ReadSettings(fd: Fd, localErr: ErrorSlot) returns (settings: Settings)
    modifies fd, localErr
    ensures var p := DecodeSettings(fd.src, old(fd.pos));
            && fd.pos == p.next
            && localErr.value == ErrorOf(p.result)
            && (p.result.Ok? ==> settings == p.result.value)
  {
    settings := Settings(0, 0, 0, 0, 0);
    var ctime := ReadUint64(fd, localErr);
    if localErr.value != None {
      localErr.value := Some(Error(Unmarshal(UnmarshalReadError), localErr.value));
      return;
    }
    var mtime := ReadUint64(fd, localErr);
    if localErr.value != None {
      localErr.value := Some(Error(Unmarshal(UnmarshalReadError), localErr.value));
      return;
    }
    var flags := ReadUint32(fd, localErr);
    if localErr.value != None {
      localErr.value := Some(Error(Unmarshal(UnmarshalReadError), localErr.value));
      return;
    }
    var lockTimeout := ReadUint32(fd, localErr);
    if localErr.value != None {
      localErr.value := Some(Error(Unmarshal(UnmarshalReadError), localErr.value));
      return;
    }
    var hashIterations := ReadUint32(fd, localErr);
    if localErr.value != None {
      localErr.value := Some(Error(Unmarshal(UnmarshalReadError), localErr.value));
      return;
    }
    settings := Settings(ctime, mtime, flags, lockTimeout, hashIterations);
  }

  /** The loop that skips the reserved words; a failure is wrapped in a READ_ERROR. */
  method SkipReserved(fd: Fd, localErr: ErrorSlot)
    requires localErr.value == None
    modifies fd, localErr
    ensures var p := DecodeReserved(fd.src, old(fd.pos), ReservedWords);
            && fd.pos == p.next
            && localErr.value == (if p.result.Ok? then None
                                  else Some(Error(Unmarshal(UnmarshalReadError), Some(p.result.error))))
  {
    ghost var src, start := fd.src, fd.pos;
    var i := 0;
    while i < ReservedWords
      invariant 0 <= i <= ReservedWords
      invariant DecodeReserved(src, start, i).result.Ok? && DecodeReserved(src, start, i).next == fd.pos
      invariant localErr.value == None
    {
      ghost var posBefore := fd.pos;
      var _ := ReadUint32(fd, localErr);
      if localErr.value != None {
        assert DecodeReserved(src, start, i + 1).result.Err?;
        ReservedFailureSticks(src, start, i + 1, ReservedWords);
        localErr.value := Some(Error(Unmarshal(UnmarshalReadError), localErr.value));
        return;
      }
      i := i + 1;
    }
  }

  lemma {:induction false} ReservedFailureSticks(src: Source, pos: nat, k: nat, n: nat)
    requires k <= n
    requires DecodeReserved(src, pos, k).result.Err?
    ensures DecodeReserved(src, pos, n) == DecodeReserved(src, pos, k)
    decreases n - k
  {
    if k < n {
      assert DecodeReserved(src, pos, k + 1) == DecodeReserved(src, pos, k);
      ReservedFailureSticks(src, pos, k + 1, n);
    }
  }

  /** The 8-byte salt, read into the keyring's salt field. */
  method ReadSalt(fd: Fd, localErr: ErrorSlot) returns (salt: Salt)
    modifies fd, localErr
    ensures var p := FixedBytes(fd.src, old(fd.pos), 8);
            && fd.pos == p.next
            && localErr.value == ErrorOf(p.result)
            && (p.result.Ok? ==> salt == p.result.value)
  {
    var buffer := new byte[8](_ => 0);
    ReadBytes(fd, buffer, 8, localErr);
    salt := if localErr.value == None then buffer[..] else [0, 0, 0, 0, 0, 0, 0, 0];
  }

  /**
   * The part of keyring_unmarshal after the hash iterations: the salt, the
   * reserved words, the item count and the item array. The items are
   * returned as the array's contents.
   */
  method ReadTail(fd: Fd, localErr: ErrorSlot, heap: Heap) returns (tail: Tail)
    requires localErr.value == None
    modifies fd, localErr, heap
    ensures var p := DecodeTail(fd.src, old(fd.pos));
            && fd.pos == p.next
            && localErr.value == ErrorOf(p.result)
            && (p.result.Ok? ==> tail == p.result.value)
            && heap.live == old(heap.live) + (if p.result.Ok? then 1 + ItemsBlocks(p.result.value.items) else 0)
  {
    ghost var src, tailStart := fd.src, fd.pos;
    tail := Tail([0, 0, 0, 0, 0, 0, 0, 0], 0, []);
    var salt := ReadSalt(fd, localErr);
    ghost var saltField := FixedBytes(src, tailStart, 8);
    if localErr.value != None {
      localErr.value := Some(Error(Unmarshal(UnmarshalReadError), localErr.value));
      assert DecodeTail(src, tailStart) == Wrap(UnmarshalReadError, saltField);
      return;
    }

    SkipReserved(fd, localErr);
    ghost var reservedField := DecodeReserved(src, saltField.next, ReservedWords);
    if localErr.value != None {
      assert DecodeTail(src, tailStart) == Wrap(UnmarshalReadError, reservedField);
      return;
    }

    var count := ReadUint32(fd, localErr);
    ghost var countField := Word(src, reservedField.next);
    if localErr.value != None {
      localErr.value := Some(Error(Unmarshal(UnmarshalReadError), localErr.value));
      assert DecodeTail(src, tailStart) == Wrap(UnmarshalReadError, countField);
      return;
    }
    assert countField.result == Ok(count as nat);

    ghost var itemsField := DecodeItems(src, countField.next, count as int);
    var items := ReadItemArray(fd, localErr, heap, count);
    if localErr.value != None {
      assert DecodeTail(src, tailStart) == Wrap(UnmarshalChildError, itemsField);
      return;
    }
    tail := Tail(salt, count, items[..]);
    assert DecodeTail(src, tailStart) == Parsed(Ok(tail), fd.pos);
  }

  /**
   * The part of keyring_unmarshal after the signature. A failure before the
   * name was read leaves nothing allocated; one after it takes the
   * `fail_name` path, which frees the name.
   */
  method ReadBody(fd: Fd, localErr: ErrorSlot, heap: Heap) returns (keyring: Keyring)
    requires localErr.value == None
    modifies fd, localErr, heap
    ensures var p := DecodeBody(fd.src, old(fd.pos));
            && fd.pos == p.next
            && localErr.value == ErrorOf(p.result)
            && (p.result.Ok? ==> keyring == p.result.value)
            && heap.live == old(heap.live) + (if p.result.Ok? then KeyringBlocks(p.result.value) else 0)
  {
    ghost var src, bodyStart := fd.src, fd.pos;
    keyring := ZeroKeyring;
    var version := ReadVersion(fd, localErr);
    ghost var versionField := DecodeVersion(src, bodyStart);
    if localErr.value != None {
      assert DecodeBody(src, bodyStart) == Fail(versionField);
      return;
    }

    var name := ReadString(fd, localErr, heap);
    ghost var nameField := LengthPrefixed(src, versionField.next);
    if localErr.value != None {
      localErr.value := Some(Error(Unmarshal(UnmarshalReadError), localErr.value));
      assert DecodeBody(src, bodyStart) == Wrap(UnmarshalReadError, nameField);
      return;
    }

    label failName: {
      var settings := ReadSettings(fd, localErr);
      ghost var settingsField := DecodeSettings(src, nameField.next);
      if localErr.value != None {
        assert DecodeBody(src, bodyStart) == Fail(settingsField);
        break failName;
      }

      ghost var tailStart := fd.pos;
      var tail := ReadTail(fd, localErr, heap);
      if localErr.value != None {
        assert DecodeBody(src, bodyStart) == Fail(DecodeTail(src, tailStart));
        break failName;
      }

      keyring := Keyring(version, name, settings.ctime, settings.mtime, settings.flags,
                         settings.lockTimeout, settings.hashIterations, tail.salt, tail.numItems, Some(tail.items));
      assert DecodeBody(src, bodyStart) == Parsed(Ok(keyring), fd.pos);
      return;
    }
    heap.Free(name.Some?);
  }

  /**
   * keyring_unmarshal: the signature, then the body. Every failure ends at
   * `fail`, which stores the error in the caller's slot; on success the slot
   * is left as it was.
   */
  method KeyringUnmarshal(fd: Fd, err: ErrorSlot?, heap: Heap) returns (keyring: Keyring)
    modifies fd, err, heap
    ensures var p := DecodeKeyring(fd.src, old(fd.pos));
            && fd.pos == p.next
            && keyring == (if p.result.Ok? then p.result.value else ZeroKeyring)
            && (err != null ==> err.value == (if p.result.Ok? then old(err.value) else Some(p.result.error)))
            && heap.live == old(heap.live) + (if p.result.Ok? then KeyringBlocks(p.result.value) else 0)
  {
    var localErr := new ErrorSlot();
    ghost var src, pos0 := fd.src, fd.pos;
    label fail: {
      var signature := new byte[16](_ => 0);
      ReadBytes(fd, signature, 16, localErr);
      ghost var signatureField := FixedBytes(src, pos0, 16);
      if localErr.value != None {
        localErr.value := Some(Error(Unmarshal(UnmarshalReadError), localErr.value));
        assert DecodeKeyring(src, pos0) == Wrap(UnmarshalReadError, signatureField);
        break fail;
      }
      assert signature[..] == signatureField.result.value;

      if signature[..] != Magic {
        localErr.value := Some(Error(Unmarshal(SignatureMismatch), None));
        assert DecodeKeyring(src, pos0) == Parsed(Err(Error(Unmarshal(SignatureMismatch), None)), fd.pos);
        break fail;
      }
      assert DecodeKeyring(src, pos0) == DecodeBody(src, fd.pos);

      keyring := ReadBody(fd, localErr, heap);
      if localErr.value != None {
        break fail;
      }
      return;
    }
    if err != null {
      err.value := localErr.value;
    }
    return ZeroKeyring;
  }
}
