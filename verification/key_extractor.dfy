/** Projection of an item onto a table's key schema, for delete requests. */
module KeyExtractor {
  import opened Items

  /** Spreading `undefined` into an object literal adds no attribute. */
  function Spread(result: Option<Key>): Key {
    if result.Some? then result.value else map[]
  }

  /**
   * The `forEach` over the key schema: each step rebinds `result` to a copy of itself
   * extended with one key attribute read from the item.
   */
  function KeyFold(keySchema: seq<string>, item: Item, result: Option<Key>): (r: Option<Key>)
    ensures r.None? <==> keySchema == [] && result.None?
    ensures r.Some? ==> r.value.Keys == Spread(result).Keys + (set a | a in keySchema)
    ensures r.Some? ==> forall a :: a in r.value ==>
              r.value[a] == (if a in keySchema then Get(item, a) else Spread(result)[a])
    decreases |keySchema|
  {
    if keySchema == [] then result
    else
      assert forall a :: a in keySchema <==> a == keySchema[0] || a in keySchema[1..];
      KeyFold(keySchema[1..], item, Some(Spread(result)[keySchema[0] := Get(item, keySchema[0])]))
  }

  /**
   * getKeyForBatchDeleteItem: the key has exactly the schema's attribute names, each bound to
   * the item's value for it, copied verbatim; with an empty schema the result stays undefined.
   */
  function KeyForBatchDeleteItem(keySchema: seq<string>, item: Item): (key: Option<Key>)
    ensures key.None? <==> keySchema == []
    ensures key.Some? ==> key.value.Keys == set a | a in keySchema
    ensures key.Some? ==> forall a :: a in key.value ==> key.value[a] == Get(item, a)
  {
    KeyFold(keySchema, item, None)
  }

  /**
   * getItemAttrForBatchDeleteRequest: a delete request whose key holds exactly the schema's
   * attributes, each with the item's value; the key is undefined when the schema is empty.
   */
  function ItemAttrForBatchDeleteRequest(keySchema: seq<string>, item: Item): (r: WriteRequest)
    ensures r.DeleteRequest?
    ensures r.key.None? <==> keySchema == []
    ensures r.key.Some? ==> r.key.value.Keys == set a | a in keySchema
    ensures r.key.Some? ==> forall a :: a in r.key.value ==> r.key.value[a] == Get(item, a)
  {
    DeleteRequest(KeyForBatchDeleteItem(keySchema, item))
  }

  /**
   * For an item that holds every key attribute (any item a scan of the same table returns),
   * the delete request carries the item's restriction to the key schema, with no undefined value.
   */
  lemma {:induction false} DeleteRequestIsKeyProjection(keySchema: seq<string>, item: Item)
    requires keySchema != []
    requires forall a :: a in keySchema ==> a in item
    ensures ItemAttrForBatchDeleteRequest(keySchema, item)
         == DeleteRequest(Some(map a | a in item && a in keySchema :: item[a]))
    ensures forall a :: a in keySchema && item[a] != Undefined ==>
              ItemAttrForBatchDeleteRequest(keySchema, item).key.value[a] != Undefined
  {
    var key := KeyForBatchDeleteItem(keySchema, item).value;
    var projection := map a | a in item && a in keySchema :: item[a];
    assert key.Keys == projection.Keys;
    assert forall a :: a in key ==> key[a] == projection[a];
    assert key == projection;
  }
}
