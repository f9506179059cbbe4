/**
 * The decoded structures: a keyring with its version, metadata, salt and
 * items; an item with its attributes; an attribute with a name and a typed
 * value. Fields that are pointers in the library (strings, arrays) are
 * `Option`s, `None` standing for NULL. Each structure's all-zero value is what
 * a failed decode returns.
 */
module Records {
  import opened Wrappers
  import opened Wire

  type Bytes = seq<byte>

  type Salt = s: seq<byte> | |s| == 8 witness [0, 0, 0, 0, 0, 0, 0, 0]

  /** The wire tags of the two attribute types. */
  const AttributeTypeString: uint32 := 0
  const AttributeTypeUint32: uint32 := 1

  datatype Version = Version(version: uint16, crypto: byte, hash: byte)

  /** The `type` field together with the union it selects. */
  datatype AttributeValue = Str(text: Option<Bytes>) | U32(word: uint32)

  datatype Attribute = Attribute(name: Option<Bytes>, value: AttributeValue)

  datatype Item = Item(
    id: uint32,
    itemType: uint32,
    numAttributes: uint32,
    attributes: Option<seq<Attribute>>)

  datatype Keyring = Keyring(
    version: Version,
    name: Option<Bytes>,
    ctime: uint64,
    mtime: uint64,
    flags: uint32,
    lockTimeout: uint32,
    hashIterations: uint32,
    salt: Salt,
    numItems: uint32,
    items: Option<seq<Item>>)

  /** The `type` field of an attribute with this value. */
  function TypeTag(v: AttributeValue): uint32
  {
    match v
    case Str(_) => AttributeTypeString
    case U32(_) => AttributeTypeUint32
  }

  /** `(struct keystore_attribute){0}`: NULL name, type STRING, NULL string. */
  const ZeroAttribute := Attribute(None, Str(None))

  /** `(struct keystore_keyring_item){0}`. */
  const ZeroItem := Item(0, 0, 0, None)

  /** `(struct keyring){0}`. */
  const ZeroKeyring := Keyring(Version(0, 0, 0), None, 0, 0, 0, 0, 0, [0, 0, 0, 0, 0, 0, 0, 0], 0, None)

  /** An item whose array pointer and count agree: NULL with count 0, or exactly `numAttributes` entries. */
  predicate ItemShaped(item: Item)
  {
    match item.attributes
    case None => item.numAttributes == 0
    case Some(s) => |s| == item.numAttributes as int
  }

  /** A keyring whose item array and count agree, and every item of it likewise. */
  predicate KeyringShaped(k: Keyring)
  {
    match k.items
    case None => k.numItems == 0
    case Some(s) => |s| == k.numItems as int && ItemsShaped(s)
  }

  /** Every item of an item array is shaped. */
  predicate ItemsShaped(s: seq<Item>)
  {
    forall i :: 0 <= i < |s| ==> ItemShaped(s[i])
  }

  // Heap blocks a value owns: one per non-NULL string and one per array.

  function StringBlocks(s: Option<Bytes>): nat
  {
    if s.Some? then 1 else 0
  }

  function AttributeBlocks(a: Attribute): nat
  {
    StringBlocks(a.name) + (match a.value case Str(s) => StringBlocks(s) case U32(_) => 0)
  }

  function AttributesBlocks(s: seq<Attribute>): nat
  {
    if s == [] then 0 else AttributesBlocks(s[..|s| - 1]) + AttributeBlocks(s[|s| - 1])
  }

  function ItemBlocks(item: Item): nat
  {
    match item.attributes
    case None => 0
    case Some(s) => 1 + AttributesBlocks(s)
  }

  function ItemsBlocks(s: seq<Item>): nat
  {
    if s == [] then 0 else ItemsBlocks(s[..|s| - 1]) + ItemBlocks(s[|s| - 1])
  }

  function KeyringBlocks(k: Keyring): nat
  {
    StringBlocks(k.name) + (match k.items case None => 0 case Some(s) => 1 + ItemsBlocks(s))
  }
}
