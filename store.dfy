/**
 * The inventory store: the single-statement operations on the inventory_items table
 * (create, read by id or barcode, update, delete, set barcode) and the unguarded
 * multi-insert.  Each is a function from the database to the Step it produces; a
 * single statement that fails changes nothing.
 */
module Store {
  import opened Wrappers
  import opened Records
  import opened Tables

  /** The row create_inventory_item writes: INSERT lists no barcode, so it is NULL. */
  function NewItemRow(id: int, item: InventoryItem, now: Timestamp): InventoryItem {
    InventoryItem(id, item.name, item.brand, item.quantity, item.costPrice,
                  item.sellingPrice, item.expiryDate, now, None)
  }

  /** create_inventory_item: the primary key and UNIQUE(name, brand) may refuse the row. */
  function InsertItem(db: Db, item: InventoryItem, now: Timestamp): (st: Step<int>)
    ensures st.result.Err? ==> st.db == db && st.result.error == ConstraintViolation
  {
    var id := AssignedId(item.id, db.itemSeq);
    if id in db.items || exists k :: k in db.items && SameNameBrand(db.items[k], item) then
      Step(db, Err(ConstraintViolation))
    else
      Step(db.(items := db.items[id := NewItemRow(id, item, now)], itemSeq := Max(db.itemSeq, id)),
           Ok(id))
  }

  lemma InsertItemSpec(db: Db, item: InventoryItem, now: Timestamp)
    requires Valid(db)
    ensures var st := InsertItem(db, item, now);
            && (st.result.Ok? <==>
                  (item.id <= 0 || item.id !in db.items)
                  && forall k :: k in db.items ==> !SameNameBrand(db.items[k], item))
            && Valid(st.db)
            && (st.result.Ok? ==>
                  var id := st.result.value;
                  && id > 0 && id !in db.items
                  && (item.id > 0 ==> id == item.id)
                  && (item.id <= 0 ==> forall k :: k in db.items ==> k < id)
                  && st.db.items == db.items[id := NewItemRow(id, item, now)]
                  && st.db.sales == db.sales && st.db.stockIns == db.stockIns)
  {
  }

  /** get_inventory_item: the row with that id, or NotFound. */
  function GetItem(db: Db, id: int): (r: Result<InventoryItem>)
    ensures r.Ok? <==> id in db.items
    ensures r.Ok? ==> r.value == db.items[id]
    ensures r.Err? ==> r.error == NotFound
  {
    if id in db.items then Ok(db.items[id]) else Err(NotFound)
  }

  /** The six columns update_inventory_item writes; id, created_at and barcode stay. */
  function Rewritten(row: InventoryItem, item: InventoryItem): InventoryItem {
    row.(name := item.name, brand := item.brand, quantity := item.quantity,
         costPrice := item.costPrice, sellingPrice := item.sellingPrice,
         expiryDate := item.expiryDate)
  }

  /**
   * update_inventory_item: an id <= 0 is refused before any SQL runs; an UPDATE
   * matching no row does nothing and succeeds; UNIQUE(name, brand) may refuse it.
   */
  function UpdateItem(db: Db, item: InventoryItem): (st: Step<()>)
    ensures st.result.Err? ==> st.db == db
    ensures item.id <= 0 <==> st.result == Err(InvalidArgument)
  {
    if item.id <= 0 then Step(db, Err(InvalidArgument))
    else if item.id !in db.items then Step(db, Ok(()))
    else if exists k :: k in db.items && k != item.id && SameNameBrand(db.items[k], item) then
      Step(db, Err(ConstraintViolation))
    else Step(db.(items := db.items[item.id := Rewritten(db.items[item.id], item)]), Ok(()))
  }

  lemma UpdateItemSpec(db: Db, item: InventoryItem)
    requires Valid(db)
    ensures var st := UpdateItem(db, item);
            && Valid(st.db)
            && st.db.sales == db.sales && st.db.stockIns == db.stockIns
            && st.db.items.Keys == db.items.Keys
            && (st.result.Ok? <==>
                  item.id > 0
                  && (item.id in db.items ==>
                        forall k :: k in db.items && k != item.id ==> !SameNameBrand(db.items[k], item)))
            && (item.id > 0 && item.id !in db.items ==> st.db == db)
            && (st.result.Ok? && item.id in db.items ==>
                  var row := st.db.items[item.id];
                  && row.id == item.id
                  && row.createdAt == db.items[item.id].createdAt
                  && row.barcode == db.items[item.id].barcode
                  && row.name == item.name && row.brand == item.brand
                  && row.quantity == item.quantity && row.costPrice == item.costPrice
                  && row.sellingPrice == item.sellingPrice && row.expiryDate == item.expiryDate
                  && forall k :: k in db.items && k != item.id ==> st.db.items[k] == db.items[k])
  {
  }

  /** An item re-read from the table and written back with a new quantity always succeeds. */
  lemma UpdateQuantitySucceeds(db: Db, id: int, quantity: int)
    requires Valid(db) && id in db.items
    ensures var st := UpdateItem(db, db.items[id].(quantity := quantity));
            && st.result.Ok?
            && st.db == db.(items := db.items[id := db.items[id].(quantity := quantity)])
            && Valid(st.db)
  {
    var row := db.items[id];
    UpdateItemSpec(db, row.(quantity := quantity));
    assert Rewritten(row, row.(quantity := quantity)) == row.(quantity := quantity);
  }

  /** delete_inventory_item: removes the row if present; movements that name it stay. */
  function DeleteItem(db: Db, id: int): (d: Db)
    ensures d.items.Keys == db.items.Keys - {id}
    ensures forall k :: k in d.items ==> d.items[k] == db.items[k]
    ensures d.sales == db.sales && d.stockIns == db.stockIns
  {
    db.(items := db.items - {id})
  }

  lemma DeleteItemValid(db: Db, id: int)
    requires Valid(db)
    ensures Valid(DeleteItem(db, id))
  {
  }

  /**
   * update_barcode: UPDATE ... SET barcode; no row matched is a silent success even
   * though the header asks for an existing item; UNIQUE(barcode) may refuse it.
   */
  function SetBarcode(db: Db, id: int, barcode: string): (st: Step<()>)
    ensures st.result.Err? ==> st.db == db && st.result.error == ConstraintViolation
  {
    if id !in db.items then Step(db, Ok(()))
    else if exists k :: k in db.items && k != id && db.items[k].barcode == Some(barcode) then
      Step(db, Err(ConstraintViolation))
    else Step(db.(items := db.items[id := db.items[id].(barcode := Some(barcode))]), Ok(()))
  }

  lemma SetBarcodeSpec(db: Db, id: int, barcode: string)
    requires Valid(db)
    ensures var st := SetBarcode(db, id, barcode);
            && Valid(st.db)
            && st.db.sales == db.sales && st.db.stockIns == db.stockIns
            && st.db.items.Keys == db.items.Keys
            && (st.result.Ok? <==>
                  id !in db.items || forall k :: k in db.items && k != id ==> db.items[k].barcode != Some(barcode))
            && (id !in db.items ==> st.db == db)
            && (st.result.Ok? && id in db.items ==>
                  st.db.items == db.items[id := db.items[id].(barcode := Some(barcode))])
  {
  }

  /** get_inventory_item_by_barcode: the item carrying that barcode, or NotFound. */
  ghost function FindByBarcode(db: Db, barcode: string): (r: Result<InventoryItem>)
    ensures r.Ok? <==> exists k :: k in db.items && db.items[k].barcode == Some(barcode)
    ensures r.Ok? ==> r.value in db.items.Values && r.value.barcode == Some(barcode)
    ensures r.Err? ==> r.error == NotFound
  {
    if exists k :: k in db.items && db.items[k].barcode == Some(barcode) then
      var k :| k in db.items && db.items[k].barcode == Some(barcode);
      Ok(db.items[k])
    else Err(NotFound)
  }

  /** Barcodes are unique, so the lookup can only find the one item that carries it. */
  lemma FindByBarcodeUnique(db: Db, barcode: string, k: int)
    requires Valid(db) && k in db.items && db.items[k].barcode == Some(barcode)
    ensures FindByBarcode(db, barcode) == Ok(db.items[k])
  {
    var r := FindByBarcode(db, barcode);
    var j :| j in db.items && db.items[j] == r.value;
  }

  /** After update_barcode(i, b) succeeds on an existing item, looking up b yields item i. */
  lemma SetBarcodeThenFind(db: Db, id: int, barcode: string)
    requires Valid(db) && id in db.items && SetBarcode(db, id, barcode).result.Ok?
    ensures var d := SetBarcode(db, id, barcode).db;
            FindByBarcode(d, barcode) == Ok(d.items[id]) && d.items[id].id == id
  {
    SetBarcodeSpec(db, id, barcode);
    var d := SetBarcode(db, id, barcode).db;
    var r := FindByBarcode(d, barcode);
    var k :| k in d.items && d.items[k] == r.value;
    assert k == id;
  }

  /** One call of create_inventory_item, as a loop body. */
  function InsertItemStep(now: Timestamp): (Db, InventoryItem) -> Step<int> {
    (db: Db, item: InventoryItem) => InsertItem(db, item, now)
  }

  /**
   * insert_inventory_items: create_inventory_item for each item in order, with no
   * transaction; a failure stops the loop and the earlier rows stay.
   */
  function InsertItems(db: Db, items: seq<InventoryItem>, now: Timestamp): (st: Step<seq<int>>)
    ensures st.result.Ok? ==> |st.result.value| == |items|
  {
    Fold(InsertItemStep(now), db, items)
  }

  /** The multi-insert keeps the invariant, the movement tables and every earlier row. */
  lemma {:induction false} InsertItemsSpec(db: Db, items: seq<InventoryItem>, now: Timestamp)
    requires Valid(db)
    ensures var st := InsertItems(db, items, now);
            && Valid(st.db)
            && st.db.sales == db.sales && st.db.stockIns == db.stockIns
            && (forall k :: k in db.items ==> k in st.db.items && st.db.items[k] == db.items[k])
    decreases |items|
  {
    if items != [] {
      var prefix := items[..|items| - 1];
      InsertItemsSpec(db, prefix, now);
      var prev := InsertItems(db, prefix, now);
      if prev.result.Ok? {
        InsertItemSpec(prev.db, items[|items| - 1], now);
      }
    }
  }

  /**
   * A successful multi-insert returns one new, distinct id per item, the explicit
   * ones kept, and each id's row holds that item's data.
   */
  lemma {:induction false} InsertItemsIds(db: Db, items: seq<InventoryItem>, now: Timestamp)
    requires Valid(db) && InsertItems(db, items, now).result.Ok?
    ensures var st := InsertItems(db, items, now);
            var ids := st.result.value;
            && |ids| == |items|
            && (forall j :: 0 <= j < |items| ==>
                  && ids[j] !in db.items && ids[j] in st.db.items
                  && st.db.items[ids[j]] == NewItemRow(ids[j], items[j], now)
                  && (items[j].id > 0 ==> ids[j] == items[j].id))
            && (forall j, j' :: 0 <= j < j' < |items| ==> ids[j] != ids[j'])
    decreases |items|
  {
    if items != [] {
      var prefix := items[..|items| - 1];
      InsertItemsIds(db, prefix, now);
      InsertItemsSpec(db, prefix, now);
      var prev := InsertItems(db, prefix, now);
      InsertItemSpec(prev.db, items[|items| - 1], now);
    }
  }
}
