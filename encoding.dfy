/**
 * The encoding the decoders invert: what a keyring file holds for a given
 * structure. An encoding is a Code, a tree of byte runs laid end to end; each
 * decoder, run over a descriptor whose next bytes are the encoding of a value
 * (and which does not fail before the end of it), returns that value and
 * stops right after it.
 */
module Encoding {
  import opened Wrappers
  import opened Wire
  import opened Descriptor
  import opened Fields
  import opened Records
  import opened Layout

  /**
   * A byte layout: a run of bytes, an unsigned integer of 8, 16, 32 or 64
   * bits in network byte order, or one layout followed by another.
   */
  datatype Code =
    | Bytes(bytes: seq<byte>)
    | Byte(u8: byte)
    | Short(u16: uint16)
    | Long(u32: uint32)
    | Quad(u64: uint64)
    | Cat(first: Code, second: Code)

  lemma Pow256Widths()
    ensures Pow256(1) == 0x100 && Pow256(2) == 0x1_0000 && Pow256(4) == 0x1_0000_0000
    ensures Pow256(8) == 0x1_0000_0000_0000_0000
  {
  }

  /** The number of bytes a layout occupies. */
  function Size(c: Code): nat
  {
    match c
    case Bytes(e) => |e|
    case Byte(_) => 1
    case Short(_) => 2
    case Long(_) => 4
    case Quad(_) => 8
    case Cat(a, b) => Size(a) + Size(b)
  }

  /** The bytes of a layout, in file order. */
  function Flat(c: Code): (e: seq<byte>)
    ensures |e| == Size(c)
  {
    Pow256Widths();
    match c
    case Bytes(b) => b
    case Byte(v) => ToBigEndian(v, 1)
    case Short(v) => ToBigEndian(v, 2)
    case Long(v) => ToBigEndian(v, 4)
    case Quad(v) => ToBigEndian(v, 8)
    case Cat(a, b) => Flat(a) + Flat(b)
  }

  /** The bytes `e` are at offset `pos` of the data. */
  predicate Present(src: Source, pos: nat, e: seq<byte>)
  {
    pos + |e| <= |src.data| && src.data[pos..pos + |e|] == e
  }

  /** No read that starts before offset `pos + n` fails. */
  predicate Readable(src: Source, pos: nat, n: nat)
  {
    src.fault.None? || pos + n < src.fault.value.at
  }

  /** The bytes `e` are at offset `pos`, and no read that starts before their end fails. */
  predicate Placed(src: Source, pos: nat, e: seq<byte>)
  {
    Present(src, pos, e) && Readable(src, pos, |e|)
  }

  /**
   * Laid out from offset `pos`, every field of `c` is in place and readable:
   * no read that starts before the end of a field fails, and the field's
   * bytes are stored there.
   */
  predicate Holds(src: Source, pos: nat, c: Code)
    decreases Size(c), 2, c
  {
    Pow256Widths();
    match c
    case Cat(a, b) => Holds(src, pos, a) && Holds(src, pos + Size(a), b)
    case Bytes(e) => Readable(src, pos, |e|) && Stored(src, pos, e)
    case Byte(v) => Readable(src, pos, 1) && NumberStored(src, pos, v, 1)
    case Short(v) => Readable(src, pos, 2) && NumberStored(src, pos, v, 2)
    case Long(v) => Readable(src, pos, 4) && NumberStored(src, pos, v, 4)
    case Quad(v) => Readable(src, pos, 8) && NumberStored(src, pos, v, 8)
  }

  /** The `width`-byte representation of `v` is stored from offset `pos`. */
  predicate NumberStored(src: Source, pos: nat, v: nat, width: nat)
    requires v < Pow256(width)
    decreases width, 1
  {
    Stored(src, pos, ToBigEndian(v, width))
  }

  /** The run `e` is stored from offset `pos`: its first byte there, and the rest after it. */
  predicate Stored(src: Source, pos: nat, e: seq<byte>)
    decreases |e|, 0
  {
    pos + |e| <= |src.data| && (|e| == 0 || (src.data[pos] == e[0] && Holds(src, pos + 1, Bytes(e[1..]))))
  }

  /** A run of bytes holds exactly when it is placed. */
  lemma {:induction false} HoldsBytes(src: Source, pos: nat, e: seq<byte>)
    ensures Holds(src, pos, Bytes(e)) <==> Placed(src, pos, e)
    decreases |e|
  {
    if |e| > 0 {
      var rest := e[1..];
      HoldsBytes(src, pos + 1, rest);
      assert e == [e[0]] + rest;
      if pos + |e| <= |src.data| {
        var slice := src.data[pos..pos + |e|];
        assert slice == [src.data[pos]] + src.data[pos + 1..pos + |e|];
        assert slice[0] == src.data[pos] && slice[1..] == src.data[pos + 1..pos + |e|];
      }
    }
  }

  /** The two halves of a concatenated layout hold one after the other. */
  lemma HoldsCat(src: Source, pos: nat, a: Code, b: Code)
    requires Holds(src, pos, Cat(a, b))
    ensures Holds(src, pos, a) && Holds(src, pos + Size(a), b)
  {
  }

  /** Two byte runs are in place one after the other exactly when their concatenation is. */
  lemma PresentSplit(src: Source, pos: nat, a: seq<byte>, b: seq<byte>)
    ensures Present(src, pos, a + b) <==> Present(src, pos, a) && Present(src, pos + |a|, b)
  {
    if pos + |a| + |b| <= |src.data| {
      var x, y := src.data[pos..pos + |a|], src.data[pos + |a|..pos + |a| + |b|];
      assert src.data[pos..pos + |a| + |b|] == x + y;
      if a + b == x + y {
        assert a == (a + b)[..|a|] && x == (x + y)[..|a|];
        assert b == (a + b)[|a|..] && y == (x + y)[|a|..];
      }
    }
  }

  /** The three parts of a layout `x`, `y`, `z` hold one after the other. */
  lemma HoldsTriple(src: Source, pos: nat, x: Code, y: Code, z: Code, yAt: nat, zAt: nat)
    requires yAt == pos + Size(x) && zAt == yAt + Size(y)
    requires Holds(src, pos, Cat(x, Cat(y, z)))
    ensures Holds(src, pos, x) && Holds(src, yAt, y) && Holds(src, zAt, z)
  {
    HoldsCat(src, pos, x, Cat(y, z));
    HoldsCat(src, yAt, y, z);
  }

  /** A layout holds exactly when its bytes are in place and no read before their end fails. */
  lemma {:induction false} HoldsFlat(src: Source, pos: nat, c: Code)
    ensures Holds(src, pos, c) <==> Placed(src, pos, Flat(c))
    decreases c
  {
    match c
    case Cat(a, b) =>
      HoldsFlat(src, pos, a);
      HoldsFlat(src, pos + Size(a), b);
      PresentSplit(src, pos, Flat(a), Flat(b));
    case Bytes(e) =>
      HoldsBytes(src, pos, e);
    case Byte(v) =>
      HoldsBytes(src, pos, Flat(c));
    case Short(v) =>
      HoldsBytes(src, pos, Flat(c));
    case Long(v) =>
      HoldsBytes(src, pos, Flat(c));
    case Quad(v) =>
      HoldsBytes(src, pos, Flat(c));
  }

  // The encoders.

  /** A string the format can hold: its length is not the NULL-string marker. */
  predicate StringEncodable(s: Option<Bytes>)
  {
    s.Some? ==> |s.value| < NoString as int
  }

  function EncodeString(s: Option<Bytes>): (c: Code)
    requires StringEncodable(s)
    ensures Size(c) == 4 + (if s.Some? then |s.value| else 0)
  {
    match s
    case None => Long(NoString)
    case Some(b) => Cat(Long(|b|), Bytes(b))
  }

  predicate AttributeEncodable(a: Attribute)
  {
    StringEncodable(a.name) && (a.value.Str? ==> StringEncodable(a.value.text))
  }

  function EncodeValue(v: AttributeValue): Code
    requires v.Str? ==> StringEncodable(v.text)
  {
    match v
    case Str(text) => EncodeString(text)
    case U32(word) => Long(word)
  }

  function EncodeAttribute(a: Attribute): (c: Code)
    requires AttributeEncodable(a)
    ensures Size(c) == Size(EncodeString(a.name)) + 4 + Size(EncodeValue(a.value))
  {
    assert Size(Long(TypeTag(a.value))) == 4;
    Cat(EncodeString(a.name), Cat(Long(TypeTag(a.value)), EncodeValue(a.value)))
  }

  predicate AttributesEncodable(s: seq<Attribute>)
  {
    forall i :: 0 <= i < |s| ==> AttributeEncodable(s[i])
  }

  /** The first `n` attributes of `s`, one after another. */
  function EncodeAttributes(s: seq<Attribute>, n: nat): Code
    requires n <= |s| && AttributesEncodable(s)
  {
    if n == 0 then Bytes([]) else Cat(EncodeAttributes(s, n - 1), EncodeAttribute(s[n - 1]))
  }

  /** An item the format can hold: an array of exactly `numAttributes` encodable attributes. */
  predicate ItemEncodable(item: Item)
  {
    && item.attributes.Some?
    && |item.attributes.value| == item.numAttributes as int
    && AttributesEncodable(item.attributes.value)
  }

  function EncodeItem(item: Item): (c: Code)
    requires ItemEncodable(item)
    ensures Size(c) == 12 + Size(EncodeAttributes(item.attributes.value, item.numAttributes as nat))
  {
    var attributes := EncodeAttributes(item.attributes.value, item.numAttributes as nat);
    var counted := Cat(Long(item.numAttributes), attributes);
    assert Size(counted) == 4 + Size(attributes);
    assert Size(Cat(Long(item.itemType), counted)) == 8 + Size(attributes);
    Cat(Long(item.id), Cat(Long(item.itemType), counted))
  }

  predicate ItemsEncodable(s: seq<Item>)
  {
    forall i :: 0 <= i < |s| ==> ItemEncodable(s[i])
  }

  /** The first `n` items of `s`, one after another. */
  function EncodeItems(s: seq<Item>, n: nat): Code
    requires n <= |s| && ItemsEncodable(s)
  {
    if n == 0 then Bytes([]) else Cat(EncodeItems(s, n - 1), EncodeItem(s[n - 1]))
  }

  /** The first `n` of the reserved words. */
  function EncodeReserved(words: seq<uint32>, n: nat): (c: Code)
    requires n <= |words|
    ensures Size(c) == 4 * n
  {
    if n == 0 then Bytes([]) else Cat(EncodeReserved(words, n - 1), Long(words[n - 1]))
  }

  function EncodeVersion(v: Version): (c: Code)
    ensures Size(c) == 4
  {
    assert Size(Byte(v.crypto)) == 1 && Size(Byte(v.hash)) == 1;
    Cat(Short(v.version), Cat(Byte(v.crypto), Byte(v.hash)))
  }

  function EncodeSettings(s: Settings): (c: Code)
    ensures Size(c) == 28
  {
    var words := Cat(Long(s.flags), Cat(Long(s.lockTimeout), Long(s.hashIterations)));
    assert Size(Long(s.lockTimeout)) == 4 && Size(Long(s.hashIterations)) == 4;
    assert Size(words) == 12;
    assert Size(Quad(s.ctime)) == 8 && Size(Cat(Quad(s.mtime), words)) == 20;
    Cat(Quad(s.ctime), Cat(Quad(s.mtime), words))
  }

  /** A tail the format can hold: exactly `numItems` encodable items, and four reserved words. */
  predicate TailEncodable(t: Tail, reserved: seq<uint32>)
  {
    |t.items| == t.numItems as int && ItemsEncodable(t.items) && |reserved| == ReservedWords
  }

  function EncodeTail(t: Tail, reserved: seq<uint32>): (c: Code)
    requires TailEncodable(t, reserved)
    ensures Size(c) == 28 + Size(EncodeItems(t.items, t.numItems as nat))
  {
    var items := EncodeItems(t.items, t.numItems as nat);
    var counted := Cat(Long(t.numItems), items);
    assert Size(counted) == 4 + Size(items);
    assert Size(Cat(EncodeReserved(reserved, ReservedWords), counted)) == 20 + Size(items);
    Cat(Bytes(t.salt), Cat(EncodeReserved(reserved, ReservedWords), counted))
  }

  /** A keyring the format can hold: an encodable name and exactly `numItems` encodable items. */
  predicate KeyringEncodable(k: Keyring)
  {
    && StringEncodable(k.name)
    && k.items.Some?
    && |k.items.value| == k.numItems as int
    && ItemsEncodable(k.items.value)
  }

  function KeyringSettings(k: Keyring): Settings
  {
    Settings(k.ctime, k.mtime, k.flags, k.lockTimeout, k.hashIterations)
  }

  function KeyringTail(k: Keyring): Tail
    requires k.items.Some?
  {
    Tail(k.salt, k.numItems, k.items.value)
  }

  function EncodeBody(k: Keyring, reserved: seq<uint32>): (c: Code)
    requires KeyringEncodable(k) && |reserved| == ReservedWords
    ensures Size(c) == 32 + Size(EncodeString(k.name)) + Size(EncodeTail(KeyringTail(k), reserved))
  {
    var tail := EncodeTail(KeyringTail(k), reserved);
    var fields := Cat(EncodeSettings(KeyringSettings(k)), tail);
    assert Size(fields) == 28 + Size(tail);
    assert Size(Cat(EncodeString(k.name), fields)) == Size(EncodeString(k.name)) + 28 + Size(tail);
    Cat(EncodeVersion(k.version), Cat(EncodeString(k.name), fields))
  }

  /** A keyring file: the signature, then the body; `reserved` are the four words the reader skips. */
  function EncodeKeyring(k: Keyring, reserved: seq<uint32>): (c: Code)
    requires KeyringEncodable(k) && |reserved| == ReservedWords
    ensures Size(c) == 16 + Size(EncodeBody(k, reserved))
  {
    Cat(Bytes(Magic), EncodeBody(k, reserved))
  }

  // Decoding an encoding. Each round trip is proved in two steps that never
  // meet in one proof: the layout's Holds splits into its fields' Holds, and
  // the fields' decoded values compose into the structure's. Offsets a
  // decoder starts or stops at are parameters, tied to the sizes of the
  // encodings by preconditions.

  lemma FixedBytesOf(src: Source, pos: nat, e: seq<byte>)
    requires Holds(src, pos, Bytes(e))
    ensures FixedBytes(src, pos, |e|) == Parsed(Ok(e), pos + |e|)
  {
    HoldsBytes(src, pos, e);
    assert Remaining(src, pos)[..|e|] == e;
  }

  lemma UnsignedOf(src: Source, pos: nat, v: nat, width: nat)
    requires v < Pow256(width)
    requires Readable(src, pos, width) && NumberStored(src, pos, v, width)
    ensures Unsigned(src, pos, width) == Parsed(Ok(v), pos + width)
  {
    FixedBytesOf(src, pos, ToBigEndian(v, width));
    BigEndianOfToBigEndian(v, width);
  }

  lemma WordOf(src: Source, pos: nat, v: uint32)
    requires Holds(src, pos, Long(v))
    ensures Word(src, pos) == Parsed(Ok(v as nat), pos + 4)
  {
    Pow256Widths();
    UnsignedOf(src, pos, v, 4);
  }

  /** An encoded string (or NULL string) decodes to itself and ends where its encoding ends. */
  lemma StringOf(src: Source, pos: nat, s: Option<Bytes>, end: nat)
    requires StringEncodable(s) && end == pos + Size(EncodeString(s))
    requires Holds(src, pos, EncodeString(s))
    ensures LengthPrefixed(src, pos) == Parsed(Ok(s), end)
  {
    match s
    case None =>
      WordOf(src, pos, NoString);
    case Some(b) =>
      var bodyAt := pos + 4;
      HoldsCat(src, pos, Long(|b|), Bytes(b));
      WordOf(src, pos, |b|);
      FixedBytesOf(src, bodyAt, b);
  }

  lemma ValueOf(src: Source, pos: nat, v: AttributeValue, end: nat)
    requires (v.Str? ==> StringEncodable(v.text)) && end == pos + Size(EncodeValue(v))
    requires Holds(src, pos, EncodeValue(v))
    ensures DecodeValue(src, pos, TypeTag(v)) == Parsed(Ok(v), end)
  {
    match v
    case Str(text) =>
      StringOf(src, pos, text, end);
    case U32(word) =>
      WordOf(src, pos, word);
  }

  lemma AttributeSplit(src: Source, pos: nat, a: Attribute, tagAt: nat)
    requires AttributeEncodable(a) && tagAt == pos + Size(EncodeString(a.name))
    requires Holds(src, pos, EncodeAttribute(a))
    ensures Holds(src, pos, EncodeString(a.name))
    ensures Holds(src, tagAt, Long(TypeTag(a.value)))
    ensures Holds(src, tagAt + 4, EncodeValue(a.value))
  {
    var name, tag, value := EncodeString(a.name), Long(TypeTag(a.value)), EncodeValue(a.value);
    var valueAt := tagAt + 4;
    HoldsTriple(src, pos, name, tag, value, tagAt, valueAt);
  }

  lemma AttributeCompose(src: Source, pos: nat, a: Attribute, tagAt: nat, end: nat)
    requires LengthPrefixed(src, pos) == Parsed(Ok(a.name), tagAt)
    requires Word(src, tagAt) == Parsed(Ok(TypeTag(a.value) as nat), tagAt + 4)
    requires DecodeValue(src, tagAt + 4, TypeTag(a.value)) == Parsed(Ok(a.value), end)
    ensures DecodeAttribute(src, pos) == Parsed(Ok(a), end)
  {
  }

  lemma AttributeFieldsOf(src: Source, pos: nat, a: Attribute, tagAt: nat, end: nat)
    requires AttributeEncodable(a) && tagAt == pos + Size(EncodeString(a.name))
    requires end == tagAt + 4 + Size(EncodeValue(a.value))
    requires Holds(src, pos, EncodeString(a.name))
    requires Holds(src, tagAt, Long(TypeTag(a.value)))
    requires Holds(src, tagAt + 4, EncodeValue(a.value))
    ensures DecodeAttribute(src, pos) == Parsed(Ok(a), end)
  {
    var valueAt := tagAt + 4;
    StringOf(src, pos, a.name, tagAt);
    WordOf(src, tagAt, TypeTag(a.value));
    ValueOf(src, valueAt, a.value, end);
    AttributeCompose(src, pos, a, tagAt, end);
  }

  /** An encoded attribute decodes to itself and ends where its encoding ends. */
  lemma AttributeOf(src: Source, pos: nat, a: Attribute, end: nat)
    requires AttributeEncodable(a) && end == pos + Size(EncodeAttribute(a))
    requires Holds(src, pos, EncodeAttribute(a))
    ensures DecodeAttribute(src, pos) == Parsed(Ok(a), end)
  {
    var tagAt := pos + Size(EncodeString(a.name));
    AttributeSplit(src, pos, a, tagAt);
    AttributeFieldsOf(src, pos, a, tagAt, end);
  }

  /** The first `n` elements of `s`, built up from the back like the decoders build their arrays. */
  function Prefix<T>(s: seq<T>, n: nat): (r: seq<T>)
    requires n <= |s|
    ensures |r| == n
  {
    if n == 0 then [] else Prefix(s, n - 1) + [s[n - 1]]
  }

  lemma {:induction false} PrefixWhole<T>(s: seq<T>, n: nat)
    requires n <= |s|
    ensures Prefix(s, n) == s[..n]
  {
    if n > 0 {
      PrefixWhole(s, n - 1);
      assert s[..n] == s[..n - 1] + [s[n - 1]];
    }
  }

  lemma AttributesSplit(src: Source, pos: nat, s: seq<Attribute>, n: nat, mid: nat)
    requires 0 < n <= |s| && AttributesEncodable(s)
    requires mid == pos + Size(EncodeAttributes(s, n - 1))
    requires Holds(src, pos, EncodeAttributes(s, n))
    ensures Holds(src, pos, EncodeAttributes(s, n - 1))
    ensures Holds(src, mid, EncodeAttribute(s[n - 1]))
    ensures Size(EncodeAttributes(s, n)) == Size(EncodeAttributes(s, n - 1)) + Size(EncodeAttribute(s[n - 1]))
  {
    HoldsCat(src, pos, EncodeAttributes(s, n - 1), EncodeAttribute(s[n - 1]));
  }

  lemma AttributesCompose(src: Source, pos: nat, s: seq<Attribute>, n: nat, mid: nat, end: nat)
    requires 0 < n <= |s|
    requires DecodeAttributes(src, pos, n - 1) == Parsed(Ok(Prefix(s, n - 1)), mid)
    requires DecodeAttribute(src, mid) == Parsed(Ok(s[n - 1]), end)
    ensures DecodeAttributes(src, pos, n) == Parsed(Ok(Prefix(s, n)), end)
  {
  }

  lemma AttributesStep(src: Source, pos: nat, s: seq<Attribute>, n: nat, mid: nat, end: nat)
    requires 0 < n <= |s| && AttributesEncodable(s) && end == mid + Size(EncodeAttribute(s[n - 1]))
    requires DecodeAttributes(src, pos, n - 1) == Parsed(Ok(Prefix(s, n - 1)), mid)
    requires Holds(src, mid, EncodeAttribute(s[n - 1]))
    ensures DecodeAttributes(src, pos, n) == Parsed(Ok(Prefix(s, n)), end)
  {
    AttributeOf(src, mid, s[n - 1], end);
    AttributesCompose(src, pos, s, n, mid, end);
  }

  /** The first `n` encoded attributes decode to the first `n` attributes. */
  lemma {:induction false} AttributesOf(src: Source, pos: nat, s: seq<Attribute>, n: nat, end: nat)
    requires n <= |s| && AttributesEncodable(s) && end == pos + Size(EncodeAttributes(s, n))
    requires Holds(src, pos, EncodeAttributes(s, n))
    ensures DecodeAttributes(src, pos, n) == Parsed(Ok(Prefix(s, n)), end)
  {
    if n > 0 {
      var mid := pos + Size(EncodeAttributes(s, n - 1));
      AttributesSplit(src, pos, s, n, mid);
      AttributesOf(src, pos, s, n - 1, mid);
      AttributesStep(src, pos, s, n, mid, end);
    }
  }

  lemma ItemSplit(src: Source, pos: nat, item: Item)
    requires ItemEncodable(item)
    requires Holds(src, pos, EncodeItem(item))
    ensures Holds(src, pos, Long(item.id))
    ensures Holds(src, pos + 4, Long(item.itemType))
    ensures Holds(src, pos + 8, Long(item.numAttributes))
    ensures Holds(src, pos + 12, EncodeAttributes(item.attributes.value, item.numAttributes as nat))
  {
    var attributes := EncodeAttributes(item.attributes.value, item.numAttributes as nat);
    HoldsCat(src, pos, Long(item.id), Cat(Long(item.itemType), Cat(Long(item.numAttributes), attributes)));
    HoldsCat(src, pos + 4, Long(item.itemType), Cat(Long(item.numAttributes), attributes));
    HoldsCat(src, pos + 8, Long(item.numAttributes), attributes);
  }

  lemma ItemCompose(src: Source, pos: nat, item: Item, end: nat)
    requires ItemEncodable(item)
    requires Word(src, pos) == Parsed(Ok(item.id as nat), pos + 4)
    requires Word(src, pos + 4) == Parsed(Ok(item.itemType as nat), pos + 8)
    requires Word(src, pos + 8) == Parsed(Ok(item.numAttributes as nat), pos + 12)
    requires DecodeAttributes(src, pos + 12, item.numAttributes as nat) == Parsed(Ok(item.attributes.value), end)
    ensures DecodeItem(src, pos) == Parsed(Ok(item), end)
  {
  }

  lemma ItemFieldsOf(src: Source, pos: nat, item: Item, end: nat)
    requires ItemEncodable(item)
    requires end == pos + 12 + Size(EncodeAttributes(item.attributes.value, item.numAttributes as nat))
    requires Holds(src, pos, Long(item.id))
    requires Holds(src, pos + 4, Long(item.itemType))
    requires Holds(src, pos + 8, Long(item.numAttributes))
    requires Holds(src, pos + 12, EncodeAttributes(item.attributes.value, item.numAttributes as nat))
    ensures DecodeItem(src, pos) == Parsed(Ok(item), end)
  {
    var s, n := item.attributes.value, item.numAttributes as nat;
    var attributesAt := pos + 12;
    WordOf(src, pos, item.id);
    WordOf(src, pos + 4, item.itemType);
    WordOf(src, pos + 8, item.numAttributes);
    AttributesOf(src, attributesAt, s, n, end);
    PrefixWhole(s, n);
    assert s[..n] == s;
    ItemCompose(src, pos, item, end);
  }

  /** An encoded item decodes to itself and ends where its encoding ends. */
  lemma ItemOf(src: Source, pos: nat, item: Item, end: nat)
    requires ItemEncodable(item) && end == pos + Size(EncodeItem(item))
    requires Holds(src, pos, EncodeItem(item))
    ensures DecodeItem(src, pos) == Parsed(Ok(item), end)
  {
    ItemSplit(src, pos, item);
    ItemFieldsOf(src, pos, item, end);
  }

  lemma ItemsSplit(src: Source, pos: nat, s: seq<Item>, n: nat, mid: nat)
    requires 0 < n <= |s| && ItemsEncodable(s)
    requires mid == pos + Size(EncodeItems(s, n - 1))
    requires Holds(src, pos, EncodeItems(s, n))
    ensures Holds(src, pos, EncodeItems(s, n - 1))
    ensures Holds(src, mid, EncodeItem(s[n - 1]))
    ensures Size(EncodeItems(s, n)) == Size(EncodeItems(s, n - 1)) + Size(EncodeItem(s[n - 1]))
  {
    HoldsCat(src, pos, EncodeItems(s, n - 1), EncodeItem(s[n - 1]));
  }

  lemma ItemsCompose(src: Source, pos: nat, s: seq<Item>, n: nat, mid: nat, end: nat)
    requires 0 < n <= |s|
    requires DecodeItems(src, pos, n - 1) == Parsed(Ok(Prefix(s, n - 1)), mid)
    requires DecodeItem(src, mid) == Parsed(Ok(s[n - 1]), end)
    ensures DecodeItems(src, pos, n) == Parsed(Ok(Prefix(s, n)), end)
  {
  }

  lemma ItemsStep(src: Source, pos: nat, s: seq<Item>, n: nat, mid: nat, end: nat)
    requires 0 < n <= |s| && ItemsEncodable(s) && end == mid + Size(EncodeItem(s[n - 1]))
    requires DecodeItems(src, pos, n - 1) == Parsed(Ok(Prefix(s, n - 1)), mid)
    requires Holds(src, mid, EncodeItem(s[n - 1]))
    ensures DecodeItems(src, pos, n) == Parsed(Ok(Prefix(s, n)), end)
  {
    ItemOf(src, mid, s[n - 1], end);
    ItemsCompose(src, pos, s, n, mid, end);
  }

  /** The first `n` encoded items decode to the first `n` items. */
  lemma {:induction false} ItemsOf(src: Source, pos: nat, s: seq<Item>, n: nat, end: nat)
    requires n <= |s| && ItemsEncodable(s) && end == pos + Size(EncodeItems(s, n))
    requires Holds(src, pos, EncodeItems(s, n))
    ensures DecodeItems(src, pos, n) == Parsed(Ok(Prefix(s, n)), end)
  {
    if n > 0 {
      var mid := pos + Size(EncodeItems(s, n - 1));
      ItemsSplit(src, pos, s, n, mid);
      ItemsOf(src, pos, s, n - 1, mid);
      ItemsStep(src, pos, s, n, mid, end);
    }
  }

  lemma ReservedCompose(src: Source, pos: nat, words: seq<uint32>, n: nat, mid: nat)
    requires 0 < n <= |words|
    requires DecodeReserved(src, pos, n - 1) == Parsed(Ok(Prefix(words, n - 1)), mid)
    requires Word(src, mid) == Parsed(Ok(words[n - 1] as nat), mid + 4)
    ensures DecodeReserved(src, pos, n) == Parsed(Ok(Prefix(words, n)), mid + 4)
  {
  }

  lemma ReservedStep(src: Source, pos: nat, words: seq<uint32>, n: nat, mid: nat)
    requires 0 < n <= |words|
    requires DecodeReserved(src, pos, n - 1) == Parsed(Ok(Prefix(words, n - 1)), mid)
    requires Holds(src, mid, Long(words[n - 1]))
    ensures DecodeReserved(src, pos, n) == Parsed(Ok(Prefix(words, n)), mid + 4)
  {
    WordOf(src, mid, words[n - 1]);
    ReservedCompose(src, pos, words, n, mid);
  }

  /** The first `n` encoded reserved words decode to those words. */
  lemma {:induction false} ReservedOf(src: Source, pos: nat, words: seq<uint32>, n: nat, end: nat)
    requires n <= |words| && end == pos + 4 * n
    requires Holds(src, pos, EncodeReserved(words, n))
    ensures DecodeReserved(src, pos, n) == Parsed(Ok(Prefix(words, n)), end)
  {
    if n > 0 {
      var mid := pos + 4 * (n - 1);
      HoldsCat(src, pos, EncodeReserved(words, n - 1), Long(words[n - 1]));
      ReservedOf(src, pos, words, n - 1, mid);
      ReservedStep(src, pos, words, n, mid);
    }
  }

  /** An encoded version triple decodes to itself. */
  lemma VersionOf(src: Source, pos: nat, v: Version)
    requires Holds(src, pos, EncodeVersion(v))
    ensures DecodeVersion(src, pos) == Parsed(Ok(v), pos + 4)
  {
    Pow256Widths();
    HoldsCat(src, pos, Short(v.version), Cat(Byte(v.crypto), Byte(v.hash)));
    HoldsCat(src, pos + 2, Byte(v.crypto), Byte(v.hash));
    UnsignedOf(src, pos, v.version, 2);
    UnsignedOf(src, pos + 2, v.crypto, 1);
    UnsignedOf(src, pos + 3, v.hash, 1);
  }

  lemma SettingsSplit(src: Source, pos: nat, s: Settings)
    requires Holds(src, pos, EncodeSettings(s))
    ensures Holds(src, pos, Quad(s.ctime)) && Holds(src, pos + 8, Quad(s.mtime))
    ensures Holds(src, pos + 16, Long(s.flags)) && Holds(src, pos + 20, Long(s.lockTimeout))
    ensures Holds(src, pos + 24, Long(s.hashIterations))
  {
    var flags, lockTimeout, hashIterations := Long(s.flags), Long(s.lockTimeout), Long(s.hashIterations);
    HoldsCat(src, pos, Quad(s.ctime), Cat(Quad(s.mtime), Cat(flags, Cat(lockTimeout, hashIterations))));
    HoldsCat(src, pos + 8, Quad(s.mtime), Cat(flags, Cat(lockTimeout, hashIterations)));
    HoldsCat(src, pos + 16, flags, Cat(lockTimeout, hashIterations));
    HoldsCat(src, pos + 20, lockTimeout, hashIterations);
  }

  /** Encoded settings decode to themselves. */
  lemma SettingsOf(src: Source, pos: nat, s: Settings)
    requires Holds(src, pos, EncodeSettings(s))
    ensures DecodeSettings(src, pos) == Parsed(Ok(s), pos + 28)
  {
    SettingsSplit(src, pos, s);
    Pow256Widths();
    UnsignedOf(src, pos, s.ctime, 8);
    UnsignedOf(src, pos + 8, s.mtime, 8);
    WordOf(src, pos + 16, s.flags);
    WordOf(src, pos + 20, s.lockTimeout);
    WordOf(src, pos + 24, s.hashIterations);
  }

  lemma TailSplit(src: Source, pos: nat, t: Tail, reserved: seq<uint32>)
    requires TailEncodable(t, reserved)
    requires Holds(src, pos, EncodeTail(t, reserved))
    ensures Holds(src, pos, Bytes(t.salt))
    ensures Holds(src, pos + 8, EncodeReserved(reserved, ReservedWords))
    ensures Holds(src, pos + 24, Long(t.numItems))
    ensures Holds(src, pos + 28, EncodeItems(t.items, t.numItems as nat))
  {
    var words, count, items := EncodeReserved(reserved, ReservedWords), Long(t.numItems), EncodeItems(t.items, t.numItems as nat);
    HoldsCat(src, pos, Bytes(t.salt), Cat(words, Cat(count, items)));
    HoldsCat(src, pos + 8, words, Cat(count, items));
    HoldsCat(src, pos + 24, count, items);
  }

  lemma TailCompose(src: Source, pos: nat, t: Tail, reserved: seq<uint32>, end: nat)
    requires TailEncodable(t, reserved)
    requires FixedBytes(src, pos, 8).result.Ok? && FixedBytes(src, pos, 8).result.value == t.salt
    requires FixedBytes(src, pos, 8).next == pos + 8
    requires DecodeReserved(src, pos + 8, ReservedWords) == Parsed(Ok(Prefix(reserved, ReservedWords)), pos + 24)
    requires Word(src, pos + 24) == Parsed(Ok(t.numItems as nat), pos + 28)
    requires DecodeItems(src, pos + 28, t.numItems as nat) == Parsed(Ok(t.items), end)
    ensures DecodeTail(src, pos) == Parsed(Ok(t), end)
  {
  }

  lemma TailFieldsOf(src: Source, pos: nat, t: Tail, reserved: seq<uint32>, end: nat)
    requires TailEncodable(t, reserved)
    requires end == pos + 28 + Size(EncodeItems(t.items, t.numItems as nat))
    requires Holds(src, pos, Bytes(t.salt))
    requires Holds(src, pos + 8, EncodeReserved(reserved, ReservedWords))
    requires Holds(src, pos + 24, Long(t.numItems))
    requires Holds(src, pos + 28, EncodeItems(t.items, t.numItems as nat))
    ensures DecodeTail(src, pos) == Parsed(Ok(t), end)
  {
    var s, n := t.items, t.numItems as nat;
    var reservedAt, itemsAt := pos + 8, pos + 28;
    FixedBytesOf(src, pos, t.salt);
    ReservedOf(src, reservedAt, reserved, ReservedWords, pos + 24);
    WordOf(src, pos + 24, t.numItems);
    ItemsOf(src, itemsAt, s, n, end);
    PrefixWhole(s, n);
    assert s[..n] == s;
    TailCompose(src, pos, t, reserved, end);
  }

  /** An encoded tail decodes to itself, whatever the reserved words. */
  lemma TailOf(src: Source, pos: nat, t: Tail, reserved: seq<uint32>, end: nat)
    requires TailEncodable(t, reserved) && end == pos + Size(EncodeTail(t, reserved))
    requires Holds(src, pos, EncodeTail(t, reserved))
    ensures DecodeTail(src, pos) == Parsed(Ok(t), end)
  {
    TailSplit(src, pos, t, reserved);
    TailFieldsOf(src, pos, t, reserved, end);
  }

  lemma BodySplit(src: Source, pos: nat, k: Keyring, reserved: seq<uint32>, settingsAt: nat)
    requires KeyringEncodable(k) && |reserved| == ReservedWords
    requires settingsAt == pos + 4 + Size(EncodeString(k.name))
    requires Holds(src, pos, EncodeBody(k, reserved))
    ensures Holds(src, pos, EncodeVersion(k.version))
    ensures Holds(src, pos + 4, EncodeString(k.name))
    ensures Holds(src, settingsAt, EncodeSettings(KeyringSettings(k)))
    ensures Holds(src, settingsAt + 28, EncodeTail(KeyringTail(k), reserved))
  {
    var name, settings, tail := EncodeString(k.name), EncodeSettings(KeyringSettings(k)), EncodeTail(KeyringTail(k), reserved);
    HoldsCat(src, pos, EncodeVersion(k.version), Cat(name, Cat(settings, tail)));
    HoldsCat(src, pos + 4, name, Cat(settings, tail));
    HoldsCat(src, settingsAt, settings, tail);
  }

  lemma BodyCompose(src: Source, pos: nat, k: Keyring, nameAt: nat, settingsAt: nat, tailAt: nat, end: nat)
    requires k.items.Some?
    requires DecodeVersion(src, pos) == Parsed(Ok(k.version), nameAt)
    requires LengthPrefixed(src, nameAt) == Parsed(Ok(k.name), settingsAt)
    requires DecodeSettings(src, settingsAt) == Parsed(Ok(KeyringSettings(k)), tailAt)
    requires DecodeTail(src, tailAt) == Parsed(Ok(KeyringTail(k)), end)
    ensures DecodeBody(src, pos) == Parsed(Ok(k), end)
  {
  }

  lemma BodyFieldsOf(src: Source, pos: nat, k: Keyring, reserved: seq<uint32>, settingsAt: nat, end: nat)
    requires KeyringEncodable(k) && |reserved| == ReservedWords
    requires settingsAt == pos + 4 + Size(EncodeString(k.name))
    requires end == settingsAt + 28 + Size(EncodeTail(KeyringTail(k), reserved))
    requires Holds(src, pos, EncodeVersion(k.version))
    requires Holds(src, pos + 4, EncodeString(k.name))
    requires Holds(src, settingsAt, EncodeSettings(KeyringSettings(k)))
    requires Holds(src, settingsAt + 28, EncodeTail(KeyringTail(k), reserved))
    ensures DecodeBody(src, pos) == Parsed(Ok(k), end)
  {
    var nameAt, tailAt := pos + 4, settingsAt + 28;
    VersionOf(src, pos, k.version);
    StringOf(src, nameAt, k.name, settingsAt);
    SettingsOf(src, settingsAt, KeyringSettings(k));
    TailOf(src, tailAt, KeyringTail(k), reserved, end);
    BodyCompose(src, pos, k, nameAt, settingsAt, tailAt, end);
  }

  /** An encoded keyring body decodes to the keyring. */
  lemma BodyOf(src: Source, pos: nat, k: Keyring, reserved: seq<uint32>, end: nat)
    requires KeyringEncodable(k) && |reserved| == ReservedWords
    requires end == pos + Size(EncodeBody(k, reserved))
    requires Holds(src, pos, EncodeBody(k, reserved))
    ensures DecodeBody(src, pos) == Parsed(Ok(k), end)
  {
    var settingsAt := pos + 4 + Size(EncodeString(k.name));
    BodySplit(src, pos, k, reserved, settingsAt);
    BodyFieldsOf(src, pos, k, reserved, settingsAt, end);
  }

  /** An encoded keyring file decodes to the keyring and is read to its last byte. */
  lemma KeyringOf(src: Source, pos: nat, k: Keyring, reserved: seq<uint32>, end: nat)
    requires KeyringEncodable(k) && |reserved| == ReservedWords
    requires end == pos + Size(EncodeKeyring(k, reserved))
    requires Holds(src, pos, EncodeKeyring(k, reserved))
    ensures DecodeKeyring(src, pos) == Parsed(Ok(k), end)
  {
    var bodyAt := pos + 16;
    HoldsCat(src, pos, Bytes(Magic), EncodeBody(k, reserved));
    FixedBytesOf(src, pos, Magic);
    BodyOf(src, bodyAt, k, reserved, end);
  }

  /** A descriptor that holds exactly a keyring's encoding and does not fail yields that keyring. */
  lemma KeyringFileOf(src: Source, k: Keyring, reserved: seq<uint32>)
    requires KeyringEncodable(k) && |reserved| == ReservedWords
    requires src.data == Flat(EncodeKeyring(k, reserved)) && src.fault.None?
    ensures DecodeKeyring(src, 0) == Parsed(Ok(k), |src.data|)
  {
    assert src.data[0..|src.data|] == src.data;
    HoldsFlat(src, 0, EncodeKeyring(k, reserved));
    KeyringOf(src, 0, k, reserved, |src.data|);
  }
}
