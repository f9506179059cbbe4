# GNOME keyring file decoder, modelled in Dafny

This project models the part of `gnome-keyring-decryptor` that reads a GNOME
keyring file (`lib/keyring/keyring.c`), together with the chained error values
the decoder reports (`lib/keyring/error.c`).

The decoder reads a file descriptor front to back, in layers:

- the fixed-width big-endian readers `keystore_read_uint8/16/32/64`;
- `keystore_read_bytes`;
- the length-prefixed string reader `keystore_read_string`, where the length
  `0xFFFFFFFF` means "no string";
- the three unmarshal functions, for an attribute, an item with its attribute
  array, and the keyring: a 16-byte signature, version, name, times, flags,
  salt, four reserved words and the item array.

Each unmarshaller:

- wraps a reader's failure in an unmarshal error;
- frees what it had allocated;
- stores the error through its `error_t *err`;
- returns the all-zero structure.

The three `*_free` functions release what a structure owns. The error library
builds nodes of three kinds: OS error number, read error and unmarshal error.
It caches each node's message the first time the node is formatted, and frees
a chain deepest first.

How the model is built:

- **The file descriptor** is the class `Descriptor.Fd`: a byte source and a
  file offset. `Read` is read(2) over that source. A source may fail: from a
  given offset on, every read fails with a given error number. A closed or
  invalid descriptor fails from offset 0.
- **The readers and unmarshallers** are methods over an `Fd`, in
  `readers.dfy` and `unmarshal.dfy`. Each one follows its C function branch by
  branch, with labelled blocks for the `goto fail` / `goto fail_name` exits.
- **The decoding functions.** Each method is proved equal to a pure decoding
  function in `fields.dfy` or `layout.dfy`. For a starting offset, that
  function gives the value or error chain, and the offset the descriptor is
  left at. The function's own contracts say what every error chain looks
  like, and that every OS error at the bottom of a chain is the descriptor's
  own error number.
- **Error values.** The decoder reports errors as `Errors.Error` values: a kind
  plus an optional cause.
- **Error nodes.** The heap nodes of `error.c` are the class
  `Errors.ErrorNode`. It holds the tag, the format implementation, the kind,
  `prev` and the cached `error_string`, with the constructors, the three
  format implementations, `error_format` and `error_free`.
- **Ownership** is a ghost count of live heap blocks (`Memory.Heap`). Every
  method states how the count changes. On success it grows by exactly the
  blocks the returned value owns. On failure it does not change, except with
  the as-written attribute reader, which leaves `NameLeak` blocks behind.
- **Round trip.** `encoding.dfy` gives an encoder for the file format. It
  proves that an encoded keyring, read from a descriptor holding exactly those
  bytes, decodes to the same keyring and is read to the last byte.
  `examples.dfy` has the library's test inputs and a few more.

A failed string length prefix is wrapped in a read error of sub-kind
CHILD_ERROR (`keyring.c:217-223`), the same as a failed string body.
`keyring.h:32` declares `keyring_unmarshal` with an `int *err`; the
model follows the `error_t *` of `keyring.c:346`.

## Model

| member | source | states |
|---|---|---|
| Wire.BigEndianOfToBigEndian | lib/keyring/keyring.c:135-196 | decoding the network-order bytes of a value that fits the width gives the value back (what be16toh/be32toh/be64toh undo) |
| Wire.ToBigEndianOfBigEndian | lib/keyring/keyring.c:135-196 | the big-endian value of any byte run re-encodes to that run: each width is a bijection |
| Descriptor.SysRead | lib/keyring/keyring.c:118 | read(2): fails with the descriptor's errno exactly when the offset is at or past the fault; otherwise transfers min(n, bytes left) bytes, the next ones in the file |
| Descriptor.Fd.Read | lib/keyring/keyring.c:118 | stores the transferred bytes at the front of the buffer, leaves the rest untouched, and advances the offset by their number; -1 and errno on failure |
| Fields.FixedBytes | lib/keyring/keyring.c:198-212 | exactly n bytes when n are there; an errno error from a failing descriptor; an end-of-file read error on a short read, with the offset moved past what was read |
| Fields.Unsigned | lib/keyring/keyring.c:116-196 | a fixed-width read succeeds exactly when its byte read does, yields their big-endian value below 256^width, and fails with the byte read's error |
| Fields.ReturnedValue | lib/keyring/keyring.c:116-196 | the value a fixed-width reader returns even on failure: the transferred bytes, zero-filled; equal to the decoded value on success |
| Fields.LengthPrefixed | lib/keyring/keyring.c:214-252 | 0xFFFFFFFF yields no string after 4 bytes; length N yields exactly the N bytes after the prefix; a failed prefix or body yields CHILD_ERROR around the primitive error |
| Fields.StringFailureCause | lib/keyring/keyring.c:214-252 | the cause inside a failed string read is the prefix read's error when the prefix failed, else the body read's error, and the offset is where that read left it |
| Readers.ReadUnsigned | lib/keyring/keyring.c:116-196 | the shared body of the four readers: zeroed buffer, one read, the decoded value, and the error stored only when `err` is not NULL |
| Readers.ReadUint8 | lib/keyring/keyring.c:116-133 | offset, returned value and stored error are those of the 1-byte read |
| Readers.ReadUint16 | lib/keyring/keyring.c:135-154 | offset, returned value and stored error are those of the 2-byte read |
| Readers.ReadUint32 | lib/keyring/keyring.c:156-175 | offset, returned value and stored error are those of the 4-byte read |
| Readers.ReadUint64 | lib/keyring/keyring.c:177-196 | offset, returned value and stored error are those of the 8-byte read |
| Readers.ReadBytes | lib/keyring/keyring.c:198-212 | the buffer holds what was transferred followed by its old contents; offset and stored error follow FixedBytes |
| Readers.ReadString | lib/keyring/keyring.c:214-252 | result, offset and stored error follow LengthPrefixed; one block stays allocated exactly when a string is returned (corrected: `err` checked on every branch) |
| Readers.ReadStringAsWritten | lib/keyring/keyring.c:214-252 | the same, under the precondition the code demands: `err` is not NULL when the prefix is the NULL-string marker |
| Layout.DecodeAttribute | lib/keyring/keyring.c:254-297 | never moves backwards; every failure is READ_ERROR around a string error, a primitive error or INVALID_ATTRIBUTE_TYPE, and any OS error in it is the descriptor's |
| Layout.InvalidTagRejected | lib/keyring/keyring.c:264-283 | a tag other than STRING and UINT32, read after a good name, fails the attribute with READ_ERROR around INVALID_ATTRIBUTE_TYPE, with nothing after the tag read |
| Layout.DecodeValue | lib/keyring/keyring.c:270-283 | a decoded value's tag is the tag read; any tag other than 0 and 1 gives INVALID_ATTRIBUTE_TYPE with no cause and reads nothing |
| Layout.DecodeAttributes | lib/keyring/keyring.c:322-334 | decodes exactly n attributes in stream order, or fails with an attribute error |
| Layout.DecodeItem | lib/keyring/keyring.c:299-344 | a decoded item has an array of exactly `num_attributes` entries; failures are READ_ERROR around a primitive error or CHILD_ERROR around an attribute error |
| Layout.DecodeItems | lib/keyring/keyring.c:439-451 | decodes exactly n items, every one shaped, or fails with an item error |
| Layout.DecodeReserved | lib/keyring/keyring.c:422-430 | the four reserved words are read as 16 bytes, or the read fails with a primitive error |
| Layout.DecodeVersion | lib/keyring/keyring.c:362-378 | u16 version, u8 crypto, u8 hash; a failure is READ_ERROR around the reader's error |
| Layout.DecodeSettings | lib/keyring/keyring.c:386-414 | u64 ctime and mtime, u32 flags, lock timeout and hash iterations; a failure is READ_ERROR around the reader's error |
| Layout.DecodeTail | lib/keyring/keyring.c:416-451 | salt, reserved words and count, then exactly `num_items` shaped items; failures are field errors or CHILD_ERROR around an item error |
| Layout.DecodeBody | lib/keyring/keyring.c:362-453 | a decoded keyring is shaped; no failure after the signature is a signature mismatch |
| Layout.DecodeKeyring | lib/keyring/keyring.c:346-463 | a decoded keyring is shaped and owns its item array; every failure has one of the keyring error shapes |
| Unmarshal.AttributeUnmarshal | lib/keyring/keyring.c:254-297 | offset, result (the zero attribute on failure) and stored error follow DecodeAttribute; the heap grows by the attribute's blocks on success and not at all on failure (corrected: the name is freed) |
| Unmarshal.AttributeUnmarshalAsWritten | lib/keyring/keyring.c:254-297 | the same, except that a failure leaves the already-read name allocated (NameLeak blocks) |
| Unmarshal.NameLeak | lib/keyring/keyring.c:291-296 | at most one block leaks, none on success, and one only when a non-NULL name was read |
| Unmarshal.AttributesLeak | lib/keyring/keyring.c:322-334 | as written, an attribute array that fails leaks at most the one name of its failing attribute, and nothing leaks when the array decodes |
| Unmarshal.ItemLeak | lib/keyring/keyring.c:299-344 | as written, a failing item leaks at most one block, the failing attribute's name, and nothing when the item decodes |
| Unmarshal.AttributesFailureSticks | lib/keyring/keyring.c:322-334 | once an attribute fails, decoding more attributes gives that same failure |
| Unmarshal.FreeAttributes | lib/keyring/keyring.c:326-329 | frees attributes [0, n) in place: their blocks leave the heap, they own nothing afterwards, the rest of the array is unchanged |
| Unmarshal.ReadAttributeArray | lib/keyring/keyring.c:321-334 | a fresh array of `count` attributes equal to DecodeAttributes; a failure at index i frees [0, i) and the array and gives CHILD_ERROR around the attribute's error |
| Unmarshal.ItemUnmarshal | lib/keyring/keyring.c:299-344 | offset, result (the zero item on failure) and error follow DecodeItem; success leaves `*err` untouched; nothing stays allocated on failure |
| Unmarshal.ItemsFailureSticks | lib/keyring/keyring.c:439-451 | once an item fails, decoding more items gives that same failure |
| Unmarshal.ReadItemArray | lib/keyring/keyring.c:438-451 | a fresh array of `count` items equal to DecodeItems; a failure at index i frees [0, i) and the array and gives CHILD_ERROR around the item's error |
| Unmarshal.FreeItems | lib/keyring/keyring.c:443-446 | frees items [0, n) in place: their blocks leave the heap, the rest of the array is unchanged |
| Unmarshal.ReadVersion | lib/keyring/keyring.c:362-378 | offset, version and error follow DecodeVersion |
| Unmarshal.ReadSettings | lib/keyring/keyring.c:386-414 | offset, settings and error follow DecodeSettings |
| Unmarshal.ReadSalt | lib/keyring/keyring.c:416-420 | offset, salt and error follow the 8-byte read |
| Unmarshal.SkipReserved | lib/keyring/keyring.c:422-430 | offset and error follow DecodeReserved; a failure is READ_ERROR around it |
| Unmarshal.ReservedFailureSticks | lib/keyring/keyring.c:423-430 | once a reserved word fails, reading more gives that same failure |
| Unmarshal.ReadTail | lib/keyring/keyring.c:416-451 | offset, tail and error follow DecodeTail; the heap grows by the item array and its items on success only |
| Unmarshal.ReadBody | lib/keyring/keyring.c:362-456 | offset, keyring and error follow DecodeBody; a failure after the name frees it (`fail_name`) |
| Unmarshal.KeyringUnmarshal | lib/keyring/keyring.c:346-463 | offset, result (the zero keyring on failure) and error follow DecodeKeyring; success leaves `*err` untouched; the heap grows by the keyring's blocks on success only |
| Release.AttributeFree | lib/keyring/keyring.c:44-52 | frees and clears the name, frees and clears the string payload only for a STRING attribute; the attribute owns nothing afterwards |
| Release.ItemFree | lib/keyring/keyring.c:65-72 | frees every attribute, then the array, and clears the pointer, leaving the other fields |
| Release.KeyringFree | lib/keyring/keyring.c:104-114 | frees the name, every item and the item array and clears both pointers, leaving the other fields |
| Errors.MessagesIdentifyKind | lib/keyring/error.c:88-166 | each read and unmarshal sub-kind has its own message |
| Errors.ErrorNode.ErrnoNew | lib/keyring/error.c:64-81 | a valid node with tag ERRNO, the errno implementation, the number, the given cause and no cached message |
| Errors.ErrorNode.ReadNew | lib/keyring/error.c:116-133 | a valid node with tag READ, the read implementation, the sub-kind, the given cause and no cached message |
| Errors.ErrorNode.UnmarshalNew | lib/keyring/error.c:174-191 | a valid node with tag UNMARSHAL, the unmarshal implementation, the sub-kind, the given cause and no cached message |
| Errors.ErrorNode.FormatErrnoImpl | lib/keyring/error.c:43-56 | NULL for a node of another tag; otherwise caches strerror of the number if nothing is cached and returns the cache |
| Errors.ErrorNode.FormatReadImpl | lib/keyring/error.c:88-108 | NULL for another tag; otherwise caches "child read failed" or "unexpected end of file" if nothing is cached and returns the cache |
| Errors.ErrorNode.FormatUnmarshalImpl | lib/keyring/error.c:140-166 | NULL for another tag; otherwise caches the sub-kind's message if nothing is cached and returns the cache |
| Errors.ErrorNode.Format | lib/keyring/error.c:24-26 | calls the node's own implementation: NULL when it belongs to another tag, else the cached message of the node's kind |
| Errors.ErrorNode.FormatTwice | lib/keyring/error.c:43-166 | formatting a constructed node twice returns the same non-NULL string, and an already cached message is what is returned |
| Errors.ErrorNode.Free | lib/keyring/error.c:28-36 | releases every node of the chain, deepest first, clearing each `prev`; terminates because the chain is finite |
| Encoding.HoldsFlat | lib/keyring/keyring.c:346-463 | a layout is in place at an offset exactly when its bytes are there and no read before their end fails |
| Encoding.StringOf | lib/keyring/keyring.c:214-252 | an encoded string or NULL string decodes to itself and ends where its encoding ends |
| Encoding.AttributeOf | lib/keyring/keyring.c:254-297 | an encoded attribute decodes to itself |
| Encoding.AttributesOf | lib/keyring/keyring.c:322-334 | n encoded attributes decode to those attributes, in order |
| Encoding.ItemOf | lib/keyring/keyring.c:299-344 | an encoded item decodes to itself |
| Encoding.ItemsOf | lib/keyring/keyring.c:439-451 | n encoded items decode to those items, in order |
| Encoding.ReservedOf | lib/keyring/keyring.c:422-430 | four encoded words are read and skipped, whatever they are |
| Encoding.VersionOf | lib/keyring/keyring.c:362-378 | an encoded version triple decodes to itself |
| Encoding.SettingsOf | lib/keyring/keyring.c:386-414 | encoded times, flags, lock timeout and hash iterations decode to themselves |
| Encoding.TailOf | lib/keyring/keyring.c:416-451 | an encoded salt, reserved words and item array decode to themselves |
| Encoding.BodyOf | lib/keyring/keyring.c:362-453 | an encoded keyring after the signature decodes to the keyring |
| Encoding.KeyringOf | lib/keyring/keyring.c:346-463 | an encoded keyring file decodes to the keyring and ends where its encoding ends |
| Encoding.KeyringFileOf | lib/keyring/keyring.c:346-463 | a descriptor holding exactly a keyring's encoding yields that keyring, read to its last byte |
| Examples.BytesExample | lib/keyring/test/read_test.c:261-271 | reading the four bytes DE AD BE EF yields exactly those bytes |
| Examples.WordExample | lib/keyring/keyring.c:156-175 | DE AD BE EF read as a 32-bit word is 0xDEADBEEF |
| Examples.WidthsExample | lib/keyring/test/read_test.c:159-241 | a run of 0x42 bytes reads as 0x42, 0x4242, 0x42424242 and 0x4242424242424242 at widths 1, 2, 4 and 8 |
| Examples.StringExample | lib/keyring/test/read_test.c:310-319 | length 4 then "test" is the string "test" |
| Examples.NullStringExample | lib/keyring/test/read_test.c:291-298 | FF FF FF FF is the NULL string, with 4 bytes consumed |
| Examples.ShortStringExample | lib/keyring/test/read_test.c:300-308 | length 255 with nothing after it is CHILD_ERROR around end of file |
| Examples.Uint32AttributeExample | lib/keyring/test/unmarshal_test.c:78-117 | 00000010 "uint32_attribute" 00000001 0000002A is that name, type UINT32, value 42, 28 bytes |
| Examples.StringAttributeExample | lib/keyring/test/unmarshal_test.c:70-74 | 00000010 "string_attribute" 00000000 0000000C "string_value" is that name with the STRING value "string_value", 40 bytes |
| Examples.InvalidTagExample | lib/keyring/keyring.c:277-283 | the name "a" followed by type tag 2 gives READ_ERROR around INVALID_ATTRIBUTE_TYPE after 9 bytes |
| Examples.ItemExample | lib/keyring/test/unmarshal_test.c:174-180 | id 42, type 42, one attribute, then the 32-bit attribute of the tests, decodes to that item in 40 bytes |
| Examples.FailingDescriptor | lib/keyring/keyring.c:350-355 | a descriptor failing from the start gives READ_ERROR around its errno, with nothing read |
| Examples.ShortFile | lib/keyring/keyring.c:350-355 | a file shorter than 16 bytes gives READ_ERROR around end of file |
| Examples.EmptyFile | lib/keyring/keyring.c:350-355 | an empty file gives READ_ERROR around end of file |
| Examples.SignatureMismatchExactly | lib/keyring/keyring.c:357-360 | SIGNATURE_MISMATCH with no cause exactly when 16 bytes were read and differ from the signature, and nothing after them is read |
| Examples.NullMarkerNeedsSlot | lib/keyring/keyring.c:226-228 | FF FF FF FF is an input on which the as-written string reader needs a non-NULL `err` |
| Examples.NameLeakExample | lib/keyring/keyring.c:291-296 | the name "a" with no type tag after it fails, and the as-written attribute reader leaks one block |
| Examples.ItemLeakExample | lib/keyring/keyring.c:321-344 | an item with one attribute whose name "a" is followed by end of file fails, and as written it leaks one block |

## Left out

- Descriptor.SysRead: a descriptor fails from one offset on, or never. A short read happens only at the end of the data. Interrupted reads and short reads in the middle of a file are not modelled.
- Error numbers and strerror are parameters. The OS message is a function `int -> string` passed to the format implementations.
- malloc failure is not modelled, because the library does not check for it (`keyring.c:232,321,438`).
- On 32-bit targets, `count * sizeof(...)` in the array allocations can overflow. This is not modelled.
- malloc(0) for an empty array is modelled as one allocated block holding no entries.
- The `*_marshal` functions (`keyring.c:18-102`) print JSON with printf; they are output only and are not modelled.
- The file, function and line metadata of error nodes, filled in by the `error.h` macros, is not modelled.
- The per-type free hooks of `error.c` do nothing and are folded into `ErrorNode.Free`.
- error_trace is declared in `error.h:22` but defined nowhere, so it is not modelled.
- The decoder's errors are `Error` values, not `ErrorNode` pointers. As a result, the heap count does not include error nodes.
- A caller that passes a NULL `err` leaks the error chain built in `local_err`. The model does not capture that leak, because it does not count error nodes.
- A string's trailing NUL byte is not kept. The model returns the `size` bytes that were read. An embedded NUL is kept as an ordinary byte, so what C string functions would see is not modelled.
- Encoding.KeyringFileOf: the round trip is stated for keyrings whose item and attribute arrays match their counts and whose strings are shorter than 0xFFFFFFFF bytes. Those are the keyrings the format can hold.
- The host byte order of be16toh/be32toh/be64toh is not modelled. The model reads network byte order, which is what those calls produce on any host.
- Unmarshal.ReadAttributeArray: built on the corrected attribute reader. As written, a failing attribute also leaks its name; `Unmarshal.AttributesLeak` counts that block.
- Unmarshal.ItemUnmarshal: built on the corrected attribute reader, so nothing stays allocated on failure. As written, one name block can leak; `Unmarshal.ItemLeak` counts it.
- Unmarshal.ReadItemArray: built on the corrected attribute reader. As written, a failing item leaks the `Unmarshal.ItemLeak` block of its failing attribute.
- Unmarshal.ReadTail: built on the corrected attribute reader. As written, a failing item array leaks that one name block as well.
- Unmarshal.ReadBody: built on the corrected attribute reader. As written, a failing item array leaks that one name block as well.
- Unmarshal.KeyringUnmarshal: built on the corrected attribute reader, so the heap does not grow on failure. As written, a failing attribute anywhere in the file leaks its one name block.
- `src/main.c` is a command-line stub and is not part of this model.

## Findings

| source | as written | input that shows it | evidently intended | confidence | as-written member | corrected member |
|---|---|---|---|---|---|---|
| lib/keyring/keyring.c:226-229 | on the NULL-string marker, `*err = 0` is stored without checking `err` for NULL | the 4 bytes FF FF FF FF, read with `err == NULL` | store through `err` only when it is not NULL, as the other branches at lines 218, 237 and 247 do | not executed | Readers.ReadStringAsWritten | Readers.ReadString |
| lib/keyring/keyring.c:258-296 | the `fail` path returns the zero attribute without freeing the name it had read | 00 00 00 01 61, then end of file: the name "a" is read, and the type tag read fails | free the name before returning, as keyring_unmarshal's `fail_name` does. Every item and keyring read inherits the leak through its attribute array | not executed | Unmarshal.AttributeUnmarshalAsWritten | Unmarshal.AttributeUnmarshal |

`Examples.NullMarkerNeedsSlot` exhibits the first input and `Examples.NameLeakExample` the second. `Examples.ItemLeakExample` shows the same leak through an item: 00000001 00000000 00000001, then 00000001 61 and end of file.
