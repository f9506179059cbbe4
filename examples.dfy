/**
 * Concrete inputs and what the decoders make of them: the readers on a few
 * byte strings, an attribute, an unopened descriptor and an empty file, and
 * the inputs that exhibit the two defects of the library as written.
 */
module Examples {
  import opened Wrappers
  import opened Wire
  import opened Errors
  import opened Descriptor
  import opened Fields
  import opened Records
  import opened Layout
  import opened Readers
  import opened Unmarshal
  import opened Encoding

  /** Appending a byte shifts the value up by eight bits. */
  lemma BigEndianSnoc(s: seq<byte>, b: byte)
    ensures BigEndian(s + [b]) == BigEndian(s) * 256 + b
  {
    assert (s + [b])[..|s|] == s;
  }

  /** On a descriptor that does not fail, a reader of `n` bytes that are there yields their value. */
  lemma UnsignedAt(src: Source, pos: nat, n: nat)
    requires src.fault.None? && pos + n <= |src.data|
    ensures Unsigned(src, pos, n) == Parsed(Ok(BigEndian(src.data[pos..pos + n])), pos + n)
  {
    assert Remaining(src, pos)[..n] == src.data[pos..pos + n];
  }

  /** Four bytes DE AD BE EF read as a 32-bit word, most significant byte first. */
  lemma WordExample()
    ensures Word(Source([0xDE, 0xAD, 0xBE, 0xEF], None), 0) == Parsed(Ok(0xDEAD_BEEF), 4)
  {
    var src := Source([0xDE, 0xAD, 0xBE, 0xEF], None);
    UnsignedAt(src, 0, 4);
    assert src.data[0..4] == [] + [0xDE] + [0xAD] + [0xBE] + [0xEF];
    BigEndianSnoc([], 0xDE);
    BigEndianSnoc([0xDE], 0xAD);
    BigEndianSnoc([0xDE, 0xAD], 0xBE);
    BigEndianSnoc([0xDE, 0xAD, 0xBE], 0xEF);
  }

  /** keystore_read_bytes of four bytes DE AD BE EF yields exactly those bytes. */
  lemma BytesExample()
    ensures FixedBytes(Source([0xDE, 0xAD, 0xBE, 0xEF], None), 0, 4) == Parsed(Ok([0xDE, 0xAD, 0xBE, 0xEF]), 4)
  {
    assert Remaining(Source([0xDE, 0xAD, 0xBE, 0xEF], None), 0)[..4] == [0xDE, 0xAD, 0xBE, 0xEF];
  }

  /** The value of `n` bytes 0x42. */
  function Repeated42(n: nat): (v: nat)
  {
    if n == 0 then 0 else Repeated42(n - 1) * 256 + 0x42
  }

  /** `n` bytes 0x42 hold the value whose every byte is 0x42. */
  lemma {:induction false} BigEndian42(n: nat)
    ensures BigEndian(seq(n, _ => 0x42)) == Repeated42(n)
  {
    if n > 0 {
      BigEndian42(n - 1);
      assert seq(n, _ => 0x42) == seq(n - 1, _ => 0x42) + [0x42];
      BigEndianSnoc(seq(n - 1, _ => 0x42), 0x42);
    }
  }

  /** Each width reads a run of 0x42 bytes as the value whose every byte is 0x42. */
  lemma WidthsExample()
    ensures var src := Source(seq(8, _ => 0x42), None);
            && Unsigned(src, 0, 1) == Parsed(Ok(0x42), 1)
            && Unsigned(src, 0, 2) == Parsed(Ok(0x4242), 2)
            && Unsigned(src, 0, 4) == Parsed(Ok(0x4242_4242), 4)
            && Unsigned(src, 0, 8) == Parsed(Ok(0x4242_4242_4242_4242), 8)
  {
    var src := Source(seq(8, _ => 0x42), None);
    UnsignedAt(src, 0, 1);
    UnsignedAt(src, 0, 2);
    UnsignedAt(src, 0, 4);
    UnsignedAt(src, 0, 8);
    assert src.data[0..1] == seq(1, _ => 0x42) && src.data[0..2] == seq(2, _ => 0x42);
    assert src.data[0..4] == seq(4, _ => 0x42) && src.data[0..8] == seq(8, _ => 0x42);
    BigEndian42(8);
    BigEndian42(4);
    BigEndian42(2);
    BigEndian42(1);
    assert Repeated42(8) == 0x4242_4242_4242_4242 by {
      assert Repeated42(4) == 0x4242_4242 by {
        assert Repeated42(2) == 0x4242;
      }
      assert Repeated42(6) == 0x4242_4242_4242;
    }
  }

  /** The bytes of an ASCII text. */
  function Ascii(s: string): (b: seq<byte>)
    requires forall i :: 0 <= i < |s| ==> s[i] as int < 0x80
    ensures |b| == |s| && forall i :: 0 <= i < |s| ==> b[i] == s[i] as int
  {
    seq(|s|, i requires 0 <= i < |s| => s[i] as int as byte)
  }

  /** The value of four bytes, most significant first. */
  lemma WordBytes(b0: byte, b1: byte, b2: byte, b3: byte)
    ensures BigEndian([b0, b1, b2, b3]) == b0 * 0x100_0000 + b1 * 0x1_0000 + b2 * 0x100 + b3
  {
    BigEndianSnoc([], b0);
    assert [] + [b0] == [b0];
    BigEndianSnoc([b0], b1);
    assert [b0] + [b1] == [b0, b1];
    BigEndianSnoc([b0, b1], b2);
    assert [b0, b1] + [b2] == [b0, b1, b2];
    BigEndianSnoc([b0, b1, b2], b3);
    assert [b0, b1, b2] + [b3] == [b0, b1, b2, b3];
    assert BigEndian([b0, b1, b2]) == b0 * 0x1_0000 + b1 * 0x100 + b2;
  }

  /** The word at `pos` of a descriptor that does not fail, from its four bytes. */
  lemma WordAt(src: Source, pos: nat, b0: byte, b1: byte, b2: byte, b3: byte)
    requires src.fault.None? && pos + 4 <= |src.data|
    requires src.data[pos..pos + 4] == [b0, b1, b2, b3]
    ensures Word(src, pos) == Parsed(Ok(b0 * 0x100_0000 + b1 * 0x1_0000 + b2 * 0x100 + b3), pos + 4)
  {
    UnsignedAt(src, pos, 4);
    WordBytes(b0, b1, b2, b3);
  }

  /** A length of 4 followed by "test" is the string "test", and the read ends after it. */
  lemma StringExample()
    ensures LengthPrefixed(Source([0, 0, 0, 4] + Ascii("test"), None), 0) == Parsed(Ok(Some(Ascii("test"))), 8)
  {
    var src := Source([0, 0, 0, 4] + Ascii("test"), None);
    WordAt(src, 0, 0, 0, 0, 4);
    assert Remaining(src, 4)[..4] == Ascii("test");
  }

  /** The prefix FF FF FF FF is the NULL string, and nothing after it is read. */
  lemma NullStringExample()
    ensures LengthPrefixed(Source([0xFF, 0xFF, 0xFF, 0xFF], None), 0) == Parsed(Ok(None), 4)
  {
    var src := Source([0xFF, 0xFF, 0xFF, 0xFF], None);
    WordAt(src, 0, 0xFF, 0xFF, 0xFF, 0xFF);
  }

  /** A length of 255 with no bytes after it: an end-of-file error wrapped in a child read error. */
  lemma ShortStringExample()
    ensures LengthPrefixed(Source([0, 0, 0, 0xFF], None), 0)
            == Parsed(Err(Error(Read(ReadChildError), Some(Error(Read(ReadEof), None)))), 4)
  {
    var src := Source([0, 0, 0, 0xFF], None);
    WordAt(src, 0, 0, 0, 0, 0xFF);
  }

  /**
   * Bytes `e` lie ahead of offset `pos` of a descriptor that does not fail:
   * reading them yields them and their big-endian value, and leaves `rest`.
   */
  lemma Ahead(src: Source, pos: nat, e: seq<byte>, rest: seq<byte>)
    requires src.fault.None? && pos <= |src.data| && Remaining(src, pos) == e + rest
    ensures FixedBytes(src, pos, |e|) == Parsed(Ok(e), pos + |e|)
    ensures Unsigned(src, pos, |e|) == Parsed(Ok(BigEndian(e)), pos + |e|)
    ensures pos + |e| <= |src.data| && Remaining(src, pos + |e|) == rest
  {
    assert Remaining(src, pos)[..|e|] == e;
    assert src.data[pos..][|e|..] == src.data[pos + |e|..];
  }

  /** A 32-bit word lies ahead: it reads as its value. */
  lemma WordAhead(src: Source, pos: nat, b0: byte, b1: byte, b2: byte, b3: byte, rest: seq<byte>)
    requires src.fault.None? && pos <= |src.data| && Remaining(src, pos) == [b0, b1, b2, b3] + rest
    ensures Word(src, pos) == Parsed(Ok(b0 * 0x100_0000 + b1 * 0x1_0000 + b2 * 0x100 + b3), pos + 4)
    ensures pos + 4 <= |src.data| && Remaining(src, pos + 4) == rest
  {
    Ahead(src, pos, [b0, b1, b2, b3], rest);
    WordBytes(b0, b1, b2, b3);
  }

  /** A string shorter than 256 bytes lies ahead, after its length: it reads as itself. */
  lemma StringAhead(src: Source, pos: nat, text: seq<byte>, rest: seq<byte>)
    requires |text| < 0x100
    requires src.fault.None? && pos <= |src.data| && Remaining(src, pos) == [0, 0, 0, |text|] + (text + rest)
    ensures LengthPrefixed(src, pos) == Parsed(Ok(Some(text)), pos + 4 + |text|)
    ensures pos + 4 + |text| <= |src.data| && Remaining(src, pos + 4 + |text|) == rest
  {
    WordAhead(src, pos, 0, 0, 0, |text|, text + rest);
    Ahead(src, pos + 4, text, rest);
  }

  /** A name, the tag 1 and a word, read one after another, are a 32-bit attribute. */
  lemma Uint32AttributeFields(src: Source, pos: nat, name: seq<byte>, v: uint32, tagAt: nat, valueAt: nat, end: nat)
    requires LengthPrefixed(src, pos) == Parsed(Ok(Some(name)), tagAt)
    requires Word(src, tagAt) == Parsed(Ok(1), valueAt)
    requires Word(src, valueAt) == Parsed(Ok(v), end)
    ensures DecodeAttribute(src, pos) == Parsed(Ok(Attribute(Some(name), U32(v))), end)
  {
    assert DecodeValue(src, valueAt, 1) == Parsed(Ok(U32(v)), end);
  }

  /** A name, the tag 0 and a second string, read one after another, are a string attribute. */
  lemma StringAttributeFields(src: Source, pos: nat, name: seq<byte>, text: seq<byte>, tagAt: nat, valueAt: nat, end: nat)
    requires LengthPrefixed(src, pos) == Parsed(Ok(Some(name)), tagAt)
    requires Word(src, tagAt) == Parsed(Ok(0), valueAt)
    requires LengthPrefixed(src, valueAt) == Parsed(Ok(Some(text)), end)
    ensures DecodeAttribute(src, pos) == Parsed(Ok(Attribute(Some(name), Str(Some(text)))), end)
  {
    assert DecodeValue(src, valueAt, 0) == Parsed(Ok(Str(Some(text))), end);
  }

  /** An id, a type, the count 1 and one attribute, read one after another, are an item. */
  lemma ItemFields(src: Source, pos: nat, id: uint32, itemType: uint32, a: Attribute, typeAt: nat, countAt: nat, attributeAt: nat, end: nat)
    requires Word(src, pos) == Parsed(Ok(id), typeAt)
    requires Word(src, typeAt) == Parsed(Ok(itemType), countAt)
    requires Word(src, countAt) == Parsed(Ok(1), attributeAt)
    requires DecodeAttribute(src, attributeAt) == Parsed(Ok(a), end)
    ensures DecodeItem(src, pos) == Parsed(Ok(Item(id, itemType, 1, Some([a]))), end)
  {
    assert DecodeAttributes(src, attributeAt, 0) == Parsed(Ok([]), attributeAt);
    assert [] + [a] == [a];
    assert DecodeAttributes(src, attributeAt, 1) == Parsed(Ok([a]), end);
  }

  /** The name of the attribute in the 32-bit attribute example: the ASCII text "uint32_attribute". */
  function AttributeName(): (name: seq<byte>)
    ensures |name| == 0x10
  {
    [117, 105, 110, 116, 51, 50, 95, 97, 116, 116, 114, 105, 98, 117, 116, 101]
  }

  /** The attribute 00000010 "uint32_attribute" 00000001 0000002A decodes to. */
  function Uint32Attribute(): Attribute
  {
    Attribute(Some(AttributeName()), U32(42))
  }

  /** The bytes 00000010 "uint32_attribute" 00000001 0000002A. */
  function Uint32AttributeBytes(): seq<byte>
  {
    [0, 0, 0, 0x10] + (AttributeName() + ([0, 0, 0, 1] + [0, 0, 0, 0x2A]))
  }

  /** The 32-bit attribute of the library's attribute test: that name, type UINT32, value 42, 28 bytes. */
  lemma Uint32AttributeExample()
    ensures DecodeAttribute(Source(Uint32AttributeBytes(), None), 0) == Parsed(Ok(Uint32Attribute()), 28)
  {
    var src := Source(Uint32AttributeBytes(), None);
    Uint32AttributeHeader();
    assert [0, 0, 0, 0x2A] + [] == [0, 0, 0, 0x2A];
    WordAhead(src, 24, 0, 0, 0, 0x2A, []);
    Uint32AttributeFields(src, 0, AttributeName(), 42, 20, 24, 28);
  }

  /** The name and the type tag of the 32-bit attribute bytes, then the value's bytes. */
  lemma Uint32AttributeHeader()
    ensures var src := Source(Uint32AttributeBytes(), None);
            && LengthPrefixed(src, 0) == Parsed(Ok(Some(AttributeName())), 20)
            && Word(src, 20) == Parsed(Ok(1), 24)
            && Remaining(src, 24) == [0, 0, 0, 0x2A]
  {
    var src := Source(Uint32AttributeBytes(), None);
    StringAhead(src, 0, AttributeName(), [0, 0, 0, 1] + [0, 0, 0, 0x2A]);
    WordAhead(src, 20, 0, 0, 0, 1, [0, 0, 0, 0x2A]);
  }

  /** The ASCII text "string_attribute". */
  function StringAttributeName(): (name: seq<byte>)
    ensures |name| == 0x10
  {
    [115, 116, 114, 105, 110, 103, 95, 97, 116, 116, 114, 105, 98, 117, 116, 101]
  }

  /** The ASCII text "string_value". */
  function StringValue(): (text: seq<byte>)
    ensures |text| == 0x0C
  {
    [115, 116, 114, 105, 110, 103, 95, 118, 97, 108, 117, 101]
  }

  /** The bytes 00000010 "string_attribute" 00000000 0000000C "string_value". */
  function StringAttributeBytes(): seq<byte>
  {
    [0, 0, 0, 0x10] + (StringAttributeName() + ([0, 0, 0, 0] + ([0, 0, 0, 0x0C] + StringValue())))
  }

  /** The name and the type tag of the string attribute bytes, then its value's bytes. */
  lemma StringAttributeHeader()
    ensures var src := Source(StringAttributeBytes(), None);
            && LengthPrefixed(src, 0) == Parsed(Ok(Some(StringAttributeName())), 20)
            && Word(src, 20) == Parsed(Ok(0), 24)
            && Remaining(src, 24) == [0, 0, 0, 0x0C] + StringValue()
  {
    var src := Source(StringAttributeBytes(), None);
    StringAhead(src, 0, StringAttributeName(), [0, 0, 0, 0] + ([0, 0, 0, 0x0C] + StringValue()));
    WordAhead(src, 20, 0, 0, 0, 0, [0, 0, 0, 0x0C] + StringValue());
  }

  /** The string attribute of the library's attribute test: that name, type STRING, value "string_value", 40 bytes. */
  lemma StringAttributeExample()
    ensures DecodeAttribute(Source(StringAttributeBytes(), None), 0)
            == Parsed(Ok(Attribute(Some(StringAttributeName()), Str(Some(StringValue())))), 40)
  {
    var src := Source(StringAttributeBytes(), None);
    StringAttributeHeader();
    assert [0, 0, 0, 0x0C] + StringValue() == [0, 0, 0, |StringValue()|] + (StringValue() + []);
    StringAhead(src, 24, StringValue(), []);
    StringAttributeFields(src, 0, StringAttributeName(), StringValue(), 20, 24, 40);
  }

  /** An attribute named "a" whose type tag is 2: READ_ERROR around INVALID_ATTRIBUTE_TYPE, after the tag. */
  lemma InvalidTagExample()
    ensures DecodeAttribute(Source([0, 0, 0, 1] + ([97] + [0, 0, 0, 2]), None), 0) == Parsed(Err(InvalidTypeError), 9)
  {
    var src := Source([0, 0, 0, 1] + ([97] + [0, 0, 0, 2]), None);
    assert [0, 0, 0, 2] + [] == [0, 0, 0, 2];
    StringAhead(src, 0, [97], [0, 0, 0, 2]);
    WordAhead(src, 5, 0, 0, 0, 2, []);
  }

  /** The item of the library's tests: id 42, type 42, and the one 32-bit attribute. */
  function TestItem(): Item
  {
    Item(42, 42, 1, Some([Uint32Attribute()]))
  }

  /** 0000002A 0000002A 00000001, then the 32-bit attribute. */
  function ItemBytes(): seq<byte>
  {
    [0, 0, 0, 0x2A] + ([0, 0, 0, 0x2A] + ([0, 0, 0, 1] + Uint32AttributeBytes()))
  }

  /** The first three words of the item bytes: id 42, type 42, one attribute, then the attribute's bytes. */
  lemma ItemHeader()
    ensures var src := Source(ItemBytes(), None);
            && Word(src, 0) == Parsed(Ok(42), 4)
            && Word(src, 4) == Parsed(Ok(42), 8)
            && Word(src, 8) == Parsed(Ok(1), 12)
            && Remaining(src, 12) == Uint32AttributeBytes()
  {
    var src := Source(ItemBytes(), None);
    var attribute := Uint32AttributeBytes();
    WordAhead(src, 0, 0, 0, 0, 0x2A, [0, 0, 0, 0x2A] + ([0, 0, 0, 1] + attribute));
    WordAhead(src, 4, 0, 0, 0, 0x2A, [0, 0, 0, 1] + attribute);
    WordAhead(src, 8, 0, 0, 0, 1, attribute);
  }

  /** The attribute of the item bytes, after their header. */
  lemma ItemAttribute()
    ensures DecodeAttribute(Source(ItemBytes(), None), 12) == Parsed(Ok(Uint32Attribute()), 40)
  {
    var src := Source(ItemBytes(), None);
    ItemHeader();
    StringAhead(src, 12, AttributeName(), [0, 0, 0, 1] + [0, 0, 0, 0x2A]);
    WordAhead(src, 32, 0, 0, 0, 1, [0, 0, 0, 0x2A]);
    assert [0, 0, 0, 0x2A] + [] == [0, 0, 0, 0x2A];
    WordAhead(src, 36, 0, 0, 0, 0x2A, []);
    Uint32AttributeFields(src, 12, AttributeName(), 42, 32, 36, 40);
  }

  /** The item of the library's item test, 40 bytes. */
  lemma ItemExample()
    ensures DecodeItem(Source(ItemBytes(), None), 0) == Parsed(Ok(TestItem()), 40)
  {
    ItemHeader();
    ItemAttribute();
    ItemFields(Source(ItemBytes(), None), 0, 42, 42, Uint32Attribute(), 4, 8, 12, 40);
  }

  /**
   * An item with one attribute whose name "a" is followed by the end of the
   * file: the item fails, and as written the attribute reader leaves the name
   * allocated inside the item decoder.
   */
  lemma ItemLeakExample()
    ensures var src := Source([0, 0, 0, 1] + ([0, 0, 0, 0] + ([0, 0, 0, 1] + ([0, 0, 0, 1] + [97]))), None);
            && DecodeItem(src, 0).result.Err?
            && ItemLeak(src, 0) == 1
  {
    var src := Source([0, 0, 0, 1] + ([0, 0, 0, 0] + ([0, 0, 0, 1] + ([0, 0, 0, 1] + [97]))), None);
    WordAhead(src, 0, 0, 0, 0, 1, [0, 0, 0, 0] + ([0, 0, 0, 1] + ([0, 0, 0, 1] + [97])));
    WordAhead(src, 4, 0, 0, 0, 0, [0, 0, 0, 1] + ([0, 0, 0, 1] + [97]));
    WordAhead(src, 8, 0, 0, 0, 1, [0, 0, 0, 1] + [97]);
    WordAhead(src, 12, 0, 0, 0, 1, [97]);
    assert [97] + [] == [97];
    Ahead(src, 16, [97], []);
    assert LengthPrefixed(src, 12) == Parsed(Ok(Some([97])), 17);
    assert Word(src, 17).result.Err?;
    assert DecodeAttributes(src, 12, 0) == Parsed(Ok([]), 12);
  }

  /** A descriptor that fails from the first read (closed or never opened) gives READ_ERROR around its errno. */
  lemma FailingDescriptor(data: seq<byte>, number: int)
    ensures DecodeKeyring(Source(data, Some(Fault(0, number))), 0)
            == Parsed(Err(Error(Unmarshal(UnmarshalReadError), Some(Error(Errno(number), None)))), 0)
  {
  }

  /** A file shorter than the signature gives READ_ERROR around an end-of-file error, after reading it all. */
  lemma ShortFile(data: seq<byte>)
    requires |data| < 16
    ensures DecodeKeyring(Source(data, None), 0)
            == Parsed(Err(Error(Unmarshal(UnmarshalReadError), Some(Error(Read(ReadEof), None)))), |data|)
  {
  }

  /** An empty file is the shortest of these. */
  lemma EmptyFile()
    ensures DecodeKeyring(Source([], None), 0)
            == Parsed(Err(Error(Unmarshal(UnmarshalReadError), Some(Error(Read(ReadEof), None)))), 0)
  {
    ShortFile([]);
  }

  /**
   * The decoder reports a signature mismatch exactly when all 16 signature
   * bytes were read and differ from the signature; then it stops after them.
   */
  lemma SignatureMismatchExactly(src: Source, pos: nat)
    ensures var signature := FixedBytes(src, pos, 16);
            DecodeKeyring(src, pos).result == Err(Error(Unmarshal(SignatureMismatch), None))
            <==> signature.result.Ok? && signature.result.value != Magic
    ensures var signature := FixedBytes(src, pos, 16);
            signature.result.Ok? && signature.result.value != Magic ==> DecodeKeyring(src, pos).next == pos + 16
  {
  }

  /**
   * The input on which keystore_read_string as written stores through a NULL
   * `err`: its prefix is the NULL-string marker, so ReadStringAsWritten
   * cannot be called on it without an error slot, while ReadString can.
   */
  lemma NullMarkerNeedsSlot()
    ensures NoStringAhead(Source([0xFF, 0xFF, 0xFF, 0xFF], None), 0)
  {
    WordAt(Source([0xFF, 0xFF, 0xFF, 0xFF], None), 0, 0xFF, 0xFF, 0xFF, 0xFF);
  }

  /**
   * The input on which keystore_attribute_unmarshal as written leaks: the
   * name "a" is read, then the type tag is missing. One block stays
   * allocated after the failure.
   */
  lemma NameLeakExample()
    ensures DecodeAttribute(Source([0, 0, 0, 1, 97], None), 0).result.Err?
    ensures NameLeak(Source([0, 0, 0, 1, 97], None), 0) == 1
  {
    var src := Source([0, 0, 0, 1, 97], None);
    var tagAt := 5;
    WordAt(src, 0, 0, 0, 0, 1);
    assert LengthPrefixed(src, 0) == Parsed(Ok(Some([97])), tagAt) by {
      assert Remaining(src, 4)[..1] == [97];
    }
    assert Word(src, tagAt).result.Err?;
  }
}
