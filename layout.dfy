/**
 * The on-disk layout of a keyring file as the unmarshal functions read it:
 * one decoding function per C function, returning the structure or the error
 * chain the C code builds, and the offset the descriptor is left at.
 */
module Layout {
  import opened Wrappers
  import opened Wire
  import opened Errors
  import opened Descriptor
  import opened Fields
  import opened Records

  /** The 16-byte signature "GnomeKeyring\n\r\0\n" every keyring file starts with. */
  const Magic: seq<byte> := [71, 110, 111, 109, 101, 75, 101, 121, 114, 105, 110, 103, 10, 13, 0, 10]

  /** The number of reserved 32-bit words after the salt. */
  const ReservedWords := 4

  /** The error an unknown attribute type tag produces: READ_ERROR around INVALID_ATTRIBUTE_TYPE. */
  const InvalidTypeError := Error(Unmarshal(UnmarshalReadError), Some(Error(Unmarshal(InvalidAttributeType), None)))

  // The error chains each decoder can produce.

  predicate AttributeError(e: Error)
  {
    && e.kind == Unmarshal(UnmarshalReadError)
    && e.prev.Some?
    && (StringError(e.prev.value) || PrimitiveError(e.prev.value)
        || e.prev.value == Error(Unmarshal(InvalidAttributeType), None))
  }

  predicate ItemError(e: Error)
  {
    && e.prev.Some?
    && ((e.kind == Unmarshal(UnmarshalReadError) && PrimitiveError(e.prev.value))
        || (e.kind == Unmarshal(UnmarshalChildError) && AttributeError(e.prev.value)))
  }

  predicate KeyringError(e: Error)
  {
    || e == Error(Unmarshal(SignatureMismatch), None)
    || FieldError(e)
    || (&& e.kind == Unmarshal(UnmarshalChildError)
        && e.prev.Some?
        && ItemError(e.prev.value))
  }

  /** A 32-bit field; its value is below 2^32 whenever it decoded. */
  function Word(src: Source, pos: nat): (p: Parsed<nat>)
    ensures p == Unsigned(src, pos, 4)
    ensures p.result.Ok? ==> p.result.value < 0x1_0000_0000
  {
    Unsigned(src, pos, 4)
  }

  /**
   * keystore_attribute_unmarshal: a name string, a 32-bit type tag, then a
   * string (tag 0) or a 32-bit word (tag 1). Any other tag is an error once
   * the tag has been read.
   */
  function DecodeAttribute(src: Source, pos: nat): (p: Parsed<Attribute>)
    ensures pos <= p.next
    ensures p.result.Err? ==> AttributeError(p.result.error) && Explained(src, p.result.error)
  {
    var name := LengthPrefixed(src, pos);
    if name.result.Err? then Wrap(UnmarshalReadError, name)
    else
      var tag := Word(src, name.next);
      if tag.result.Err? then Wrap(UnmarshalReadError, tag)
      else
        var value := DecodeValue(src, tag.next, tag.result.value);
        if value.result.Err? then Wrap(UnmarshalReadError, value)
        else Parsed(Ok(Attribute(name.result.value, value.result.value)), value.next)
  }

  /**
   * An unknown type tag, once the name and the tag have been read, fails the
   * attribute with READ_ERROR around INVALID_ATTRIBUTE_TYPE, and nothing
   * after the tag is read.
   */
  lemma InvalidTagRejected(src: Source, pos: nat)
    requires var name := LengthPrefixed(src, pos);
             name.result.Ok? && Word(src, name.next).result.Ok?
    requires var tag := Word(src, LengthPrefixed(src, pos).next);
             tag.result.value != AttributeTypeString as nat && tag.result.value != AttributeTypeUint32 as nat
    ensures DecodeAttribute(src, pos) == Parsed(Err(InvalidTypeError), Word(src, LengthPrefixed(src, pos).next).next)
  {
  }

  /**
   * The switch on the type tag: a string for tag 0, a 32-bit word for tag 1,
   * and for any other tag an INVALID_ATTRIBUTE_TYPE error, with nothing read.
   */
  function DecodeValue(src: Source, pos: nat, tag: nat): (p: Parsed<AttributeValue>)
    ensures pos <= p.next
    ensures p.result.Ok? ==> tag == TypeTag(p.result.value) as nat
    ensures tag != AttributeTypeString as nat && tag != AttributeTypeUint32 as nat ==>
              p == Parsed(Err(Error(Unmarshal(InvalidAttributeType), None)), pos)
    ensures p.result.Err? ==>
              && (StringError(p.result.error) || PrimitiveError(p.result.error)
                  || p.result.error == Error(Unmarshal(InvalidAttributeType), None))
              && Explained(src, p.result.error)
  {
    if tag == AttributeTypeString as nat then
      var text := LengthPrefixed(src, pos);
      if text.result.Err? then Fail(text)
      else Parsed(Ok(Str(text.result.value)), text.next)
    else if tag == AttributeTypeUint32 as nat then
      var word := Word(src, pos);
      if word.result.Err? then Fail(word)
      else Parsed(Ok(U32(word.result.value as uint32)), word.next)
    else
      Parsed(Err(Error(Unmarshal(InvalidAttributeType), None)), pos)
  }

  /** The first `n` attributes of an item's attribute array, read one after another. */
  function DecodeAttributes(src: Source, pos: nat, n: nat): (p: Parsed<seq<Attribute>>)
    ensures pos <= p.next
    ensures p.result.Ok? ==> |p.result.value| == n
    ensures p.result.Err? ==> AttributeError(p.result.error) && Explained(src, p.result.error)
  {
    if n == 0 then Parsed(Ok([]), pos)
    else
      var front := DecodeAttributes(src, pos, n - 1);
      if front.result.Err? then front
      else
        var last := DecodeAttribute(src, front.next);
        if last.result.Err? then Parsed(Err(last.result.error), last.next)
        else Parsed(Ok(front.result.value + [last.result.value]), last.next)
  }

  /** keystore_keyring_item_unmarshal: id, type, attribute count, then the attributes. */
  function DecodeItem(src: Source, pos: nat): (p: Parsed<Item>)
    ensures pos <= p.next
    ensures p.result.Ok? ==> ItemShaped(p.result.value) && p.result.value.attributes.Some?
    ensures p.result.Err? ==> ItemError(p.result.error) && Explained(src, p.result.error)
  {
    var id := Word(src, pos);
    if id.result.Err? then Wrap(UnmarshalReadError, id)
    else
      var itemType := Word(src, id.next);
      if itemType.result.Err? then Wrap(UnmarshalReadError, itemType)
      else
        var count := Word(src, itemType.next);
        if count.result.Err? then Wrap(UnmarshalReadError, count)
        else
          var attributes := DecodeAttributes(src, count.next, count.result.value);
          if attributes.result.Err? then Wrap(UnmarshalChildError, attributes)
          else
            Parsed(Ok(Item(id.result.value as uint32, itemType.result.value as uint32,
                           count.result.value as uint32, Some(attributes.result.value))),
                   attributes.next)
  }

  /** The first `n` items of a keyring's item array. */
  function DecodeItems(src: Source, pos: nat, n: nat): (p: Parsed<seq<Item>>)
    ensures pos <= p.next
    ensures p.result.Ok? ==>
              && |p.result.value| == n
              && ItemsShaped(p.result.value)
    ensures p.result.Err? ==> ItemError(p.result.error) && Explained(src, p.result.error)
  {
    if n == 0 then Parsed(Ok([]), pos)
    else
      var front := DecodeItems(src, pos, n - 1);
      if front.result.Err? then front
      else
        var last := DecodeItem(src, front.next);
        if last.result.Err? then Parsed(Err(last.result.error), last.next)
        else Parsed(Ok(front.result.value + [last.result.value]), last.next)
  }

  /** The first `n` reserved words; the library reads and discards them. */
  function DecodeReserved(src: Source, pos: nat, n: nat): (p: Parsed<seq<nat>>)
    ensures pos <= p.next
    ensures p.result.Ok? ==> |p.result.value| == n && p.next == pos + 4 * n
    ensures p.result.Err? ==> PrimitiveError(p.result.error) && Explained(src, p.result.error)
  {
    if n == 0 then Parsed(Ok([]), pos)
    else
      var front := DecodeReserved(src, pos, n - 1);
      if front.result.Err? then front
      else
        var last := Word(src, front.next);
        if last.result.Err? then Parsed(Err(last.result.error), last.next)
        else Parsed(Ok(front.result.value + [last.result.value]), last.next)
  }

  /** A header field that could not be read: READ_ERROR around a reader's error. */
  predicate FieldError(e: Error)
  {
    && e.kind == Unmarshal(UnmarshalReadError)
    && e.prev.Some?
    && (PrimitiveError(e.prev.value) || StringError(e.prev.value))
  }

  /** The failure of an earlier stage, passed on unchanged. */
  function Fail<T, U>(inner: Parsed<U>): Parsed<T>
    requires inner.result.Err?
  {
    Parsed(Err(inner.result.error), inner.next)
  }

  /** The 16-bit format version, then the crypto and hash bytes. */
  function DecodeVersion(src: Source, pos: nat): (p: Parsed<Version>)
    ensures pos <= p.next
    ensures p.result.Err? ==> FieldError(p.result.error) && Explained(src, p.result.error)
  {
    var version := Unsigned(src, pos, 2);
    if version.result.Err? then Wrap(UnmarshalReadError, version) else
    var crypto := Unsigned(src, version.next, 1);
    if crypto.result.Err? then Wrap(UnmarshalReadError, crypto) else
    var hash := Unsigned(src, crypto.next, 1);
    if hash.result.Err? then Wrap(UnmarshalReadError, hash) else
    Parsed(Ok(Version(version.result.value as uint16, crypto.result.value as byte, hash.result.value as byte)),
           hash.next)
  }

  /** The fields between the name and the salt. */
  datatype Settings = Settings(ctime: uint64, mtime: uint64, flags: uint32, lockTimeout: uint32, hashIterations: uint32)

  /** ctime and mtime (64-bit), flags, lock timeout and hash iterations (32-bit). */
  function DecodeSettings(src: Source, pos: nat): (p: Parsed<Settings>)
    ensures pos <= p.next
    ensures p.result.Err? ==> FieldError(p.result.error) && Explained(src, p.result.error)
  {
    var ctime := Unsigned(src, pos, 8);
    if ctime.result.Err? then Wrap(UnmarshalReadError, ctime) else
    var mtime := Unsigned(src, ctime.next, 8);
    if mtime.result.Err? then Wrap(UnmarshalReadError, mtime) else
    var flags := Word(src, mtime.next);
    if flags.result.Err? then Wrap(UnmarshalReadError, flags) else
    var lockTimeout := Word(src, flags.next);
    if lockTimeout.result.Err? then Wrap(UnmarshalReadError, lockTimeout) else
    var hashIterations := Word(src, lockTimeout.next);
    if hashIterations.result.Err? then Wrap(UnmarshalReadError, hashIterations) else
    Parsed(Ok(Settings(ctime.result.value as uint64, mtime.result.value as uint64, flags.result.value as uint32,
                       lockTimeout.result.value as uint32, hashIterations.result.value as uint32)),
           hashIterations.next)
  }

  /** The fields after the settings. */
  datatype Tail = Tail(salt: Salt, numItems: uint32, items: seq<Item>)

  /** The 8-byte salt, the reserved words, the 32-bit item count and the items. */
  function DecodeTail(src: Source, pos: nat): (p: Parsed<Tail>)
    ensures pos <= p.next
    ensures p.result.Ok? ==>
              var t := p.result.value;
              && |t.items| == t.numItems as int
              && ItemsShaped(t.items)
    ensures p.result.Err? ==>
              && (FieldError(p.result.error)
                  || (p.result.error.kind == Unmarshal(UnmarshalChildError)
                      && p.result.error.prev.Some? && ItemError(p.result.error.prev.value)))
              && Explained(src, p.result.error)
  {
    var salt := FixedBytes(src, pos, 8);
    if salt.result.Err? then Wrap(UnmarshalReadError, salt) else
    var reserved := DecodeReserved(src, salt.next, ReservedWords);
    if reserved.result.Err? then Wrap(UnmarshalReadError, reserved) else
    var count := Word(src, reserved.next);
    if count.result.Err? then Wrap(UnmarshalReadError, count) else
    var items := DecodeItems(src, count.next, count.result.value);
    if items.result.Err? then Wrap(UnmarshalChildError, items) else
    Parsed(Ok(Tail(salt.result.value, count.result.value as uint32, items.result.value)), items.next)
  }

  /**
   * keyring_unmarshal after the signature: the version, the name string, the
   * settings and the tail.
   */
  function DecodeBody(src: Source, pos: nat): (p: Parsed<Keyring>)
    ensures pos <= p.next
    ensures p.result.Ok? ==> KeyringShaped(p.result.value) && p.result.value.items.Some?
    ensures p.result.Err? ==>
              && p.result.error != Error(Unmarshal(SignatureMismatch), None)
              && KeyringError(p.result.error) && Explained(src, p.result.error)
  {
    var version := DecodeVersion(src, pos);
    if version.result.Err? then Fail(version) else
    var name := LengthPrefixed(src, version.next);
    if name.result.Err? then Wrap(UnmarshalReadError, name) else
    var settings := DecodeSettings(src, name.next);
    if settings.result.Err? then Fail(settings) else
    var tail := DecodeTail(src, settings.next);
    if tail.result.Err? then Fail(tail) else
    var s, t := settings.result.value, tail.result.value;
    Parsed(Ok(Keyring(version.result.value, name.result.value,
                      s.ctime, s.mtime, s.flags, s.lockTimeout, s.hashIterations,
                      t.salt, t.numItems, Some(t.items))),
           tail.next)
  }

  /** keyring_unmarshal: the signature, compared byte for byte, then the body. */
  function DecodeKeyring(src: Source, pos: nat): (p: Parsed<Keyring>)
    ensures pos <= p.next
    ensures p.result.Ok? ==> KeyringShaped(p.result.value) && p.result.value.items.Some?
    ensures p.result.Err? ==> KeyringError(p.result.error) && Explained(src, p.result.error)
  {
    var signature := FixedBytes(src, pos, 16);
    if signature.result.Err? then Wrap(UnmarshalReadError, signature)
    else if signature.result.value != Magic then
      Parsed(Err(Error(Unmarshal(SignatureMismatch), None)), signature.next)
    else DecodeBody(src, signature.next)
  }
}
