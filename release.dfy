/**
 * keystore_attribute_free, keystore_keyring_item_free and keyring_free: each
 * releases what the structure owns, its children first, and resets the
 * released pointers to NULL.
 */
module Release {
  import opened Wrappers
  import opened Records
  import opened Memory

  /** Frees the name, and the string payload only when the type is STRING. */
  method AttributeFree(heap: Heap, a: Attribute) returns (r: Attribute)
    modifies heap
    ensures r.name == None
    ensures r.value == (if a.value.Str? then Str(None) else a.value)
    ensures heap.live == old(heap.live) - AttributeBlocks(a)
    ensures AttributeBlocks(r) == 0
  {
    heap.Free(a.name.Some?);
    r := a.(name := None);
    if a.value.Str? {
      heap.Free(a.value.text.Some?);
      r := r.(value := Str(None));
    }
  }

  /** Frees every attribute of the array, then the array. The count is left as it was. */
  method ItemFree(heap: Heap, item: Item) returns (r: Item)
    requires ItemShaped(item)
    modifies heap
    ensures r == item.(attributes := None)
    ensures heap.live == old(heap.live) - ItemBlocks(item)
    ensures ItemBlocks(r) == 0
  {
    var attributes := if item.attributes.Some? then item.attributes.value else [];
    ghost var owned := attributes;
    var i := 0;
    while i < item.numAttributes as int
      invariant 0 <= i <= |attributes| == |owned| == item.numAttributes as int
      invariant forall k :: i <= k < |attributes| ==> attributes[k] == owned[k]
      invariant heap.live == old(heap.live) - AttributesBlocks(owned[..i])
    {
      assert owned[..i + 1][..i] == owned[..i];
      var released := AttributeFree(heap, attributes[i]);
      attributes := attributes[i := released];
      i := i + 1;
    }
    assert owned[..i] == owned;
    heap.Free(item.attributes.Some?);
    r := item.(attributes := None);
  }

  /** Frees the name, every item of the array, then the array. The count is left as it was. */
  method KeyringFree(heap: Heap, k: Keyring) returns (r: Keyring)
    requires KeyringShaped(k)
    modifies heap
    ensures r == k.(name := None, items := None)
    ensures heap.live == old(heap.live) - KeyringBlocks(k)
    ensures KeyringBlocks(r) == 0
  {
    heap.Free(k.name.Some?);
    var items := if k.items.Some? then k.items.value else [];
    ghost var owned := items;
    var i := 0;
    while i < k.numItems as int
      invariant 0 <= i <= |items| == |owned| == k.numItems as int
      invariant forall k :: i <= k < |items| ==> items[k] == owned[k]
      invariant heap.live == old(heap.live) - StringBlocks(k.name) - ItemsBlocks(owned[..i])
    {
      assert owned[..i + 1][..i] == owned[..i];
      var released := ItemFree(heap, items[i]);
      items := items[i := released];
      i := i + 1;
    }
    assert owned[..i] == owned;
    heap.Free(k.items.Some?);
    r := k.(name := None, items := None);
  }
}
