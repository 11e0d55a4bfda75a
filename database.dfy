/**
 * The Epharma object: its three tables are fields that its methods change statement
 * by statement.  A transaction saves the fields at BEGIN and puts them back on
 * ROLLBACK.  Every method is proved to reach exactly the state and the result of the
 * corresponding function of Store and Ledger, so the lemmas proved there hold of it.
 */
module Database {
  import opened Wrappers
  import opened Records
  import opened Tables
  import opened Store
  import Ledger

  /** The text of a stock-in in one of the two columns search_stock_in_items accepts. */
  function ColumnText(s: StockIn, column: string): string {
    if column == "invoice_no" then s.invoiceNo else s.batchNo
  }

  /** The query occurs in the text starting at position i. */
  predicate OccursAt(text: string, query: string, i: int) {
    0 <= i <= |text| - |query| && text[i..i + |query|] == query
  }

  /** LIKE '%query%' read as plain substring containment. */
  predicate Contains(text: string, query: string) {
    exists i | 0 <= i <= |text| - |query| :: OccursAt(text, query, i)
  }

  class Epharma {
    var items: map<int, InventoryItem>
    var itemSeq: int
    var sales: map<int, SalesItem>
    var saleSeq: int
    var stockIns: map<int, StockIn>
    var stockInSeq: int

    /** The tables as one value. */
    function Snapshot(): Db
      reads this
    {
      Db(items, itemSeq, sales, saleSeq, stockIns, stockInSeq)
    }

    ghost predicate Valid()
      reads this
    {
      Tables.Valid(Snapshot())
    }

    /** A connection to freshly created tables. */
    constructor ()
      ensures Snapshot() == Empty && Valid()
    {
      items, itemSeq := map[], 0;
      sales, saleSeq := map[], 0;
      stockIns, stockInSeq := map[], 0;
    }

    /** ROLLBACK: the tables return to the state saved at BEGIN. */
    method Rollback(saved: Db)
      modifies this
      ensures Snapshot() == saved
    {
      items, itemSeq := saved.items, saved.itemSeq;
      sales, saleSeq := saved.sales, saved.saleSeq;
      stockIns, stockInSeq := saved.stockIns, saved.stockInSeq;
    }

    // ------------------------------------------------------------ inventory

    method CreateInventoryItem(item: InventoryItem, now: Timestamp) returns (r: Result<int>)
      requires Valid()
      modifies this
      ensures Valid()
      ensures Step(Snapshot(), r) == InsertItem(old(Snapshot()), item, now)
    {
      InsertItemSpec(Snapshot(), item, now);
      var id := if item.id > 0 then item.id else itemSeq + 1;
      if id in items || exists k :: k in items && SameNameBrand(items[k], item) {
        return Err(ConstraintViolation);
      }
      items := items[id := NewItemRow(id, item, now)];
      itemSeq := Max(itemSeq, id);
      r := Ok(id);
    }

    method InsertInventoryItems(list: seq<InventoryItem>, now: Timestamp) returns (r: Result<seq<int>>)
      requires Valid()
      modifies this
      ensures Valid()
      ensures Step(Snapshot(), r) == InsertItems(old(Snapshot()), list, now)
    {
      ghost var start := Snapshot();
      var ids: seq<int> := [];
      var i := 0;
      while i < |list|
        invariant 0 <= i <= |list| && Valid()
        invariant Fold(InsertItemStep(now), start, list[..i]) == Step(Snapshot(), Ok(ids))
      {
        ghost var before := Snapshot();
        var one := CreateInventoryItem(list[i], now);
        assert InsertItemStep(now)(before, list[i]) == Step(Snapshot(), one);
        FoldNext(InsertItemStep(now), start, list, i);
        if one.Err? {
          FoldStopped(InsertItemStep(now), start, list, i + 1);
          return Err(one.error);
        }
        ids := ids + [one.value];
        i := i + 1;
      }
      assert list[..i] == list;
      r := Ok(ids);
    }

    method GetInventoryItem(id: int) returns (r: Result<InventoryItem>)
      ensures r.Ok? <==> id in items
      ensures r.Ok? ==> r.value == items[id]
      ensures r.Err? ==> r.error == NotFound
    {
      if id in items {
        r := Ok(items[id]);
      } else {
        r := Err(NotFound);
      }
    }

    /** get_inventory_items: every row, in increasing id (rowid) order. */
    method GetInventoryItems() returns (r: seq<InventoryItem>)
      requires Valid()
      ensures forall x :: x in r <==> x in items.Values
      ensures forall j, j' :: 0 <= j < j' < |r| ==> r[j].id < r[j'].id
    {
      r := [];
      var k := 1;
      while k <= itemSeq
        invariant 1 <= k <= itemSeq + 1
        invariant forall x :: x in r <==> x.id in items && x.id < k && items[x.id] == x
        invariant forall j, j' :: 0 <= j < j' < |r| ==> r[j].id < r[j'].id
        invariant forall j :: 0 <= j < |r| ==> r[j].id < k
      {
        if k in items {
          r := r + [items[k]];
        }
        k := k + 1;
      }
      forall key | key in items
        ensures items[key] in r
      {
        assert items[key].id == key;
      }
    }

    method UpdateInventoryItem(item: InventoryItem) returns (r: Result<()>)
      requires Valid()
      modifies this
      ensures Valid()
      ensures Step(Snapshot(), r) == UpdateItem(old(Snapshot()), item)
    {
      UpdateItemSpec(Snapshot(), item);
      if item.id <= 0 {
        return Err(InvalidArgument);
      }
      if item.id !in items {
        return Ok(());
      }
      if exists k :: k in items && k != item.id && SameNameBrand(items[k], item) {
        return Err(ConstraintViolation);
      }
      items := items[item.id := Rewritten(items[item.id], item)];
      r := Ok(());
    }

    method DeleteInventoryItem(id: int)
      requires Valid()
      modifies this
      ensures Valid()
      ensures Snapshot() == DeleteItem(old(Snapshot()), id)
    {
      DeleteItemValid(Snapshot(), id);
      items := items - {id};
    }

    method UpdateBarcode(id: int, barcode: string) returns (r: Result<()>)
      requires Valid()
      modifies this
      ensures Valid()
      ensures Step(Snapshot(), r) == SetBarcode(old(Snapshot()), id, barcode)
    {
      SetBarcodeSpec(Snapshot(), id, barcode);
      if id !in items {
        return Ok(());
      }
      if exists k :: k in items && k != id && items[k].barcode == Some(barcode) {
        return Err(ConstraintViolation);
      }
      items := items[id := items[id].(barcode := Some(barcode))];
      r := Ok(());
    }

    /** get_inventory_item_by_barcode: scans the rows for the barcode (LIMIT 1). */
    method GetInventoryItemByBarcode(barcode: string) returns (r: Result<InventoryItem>)
      requires Valid()
      ensures r == FindByBarcode(Snapshot(), barcode)
    {
      var k := 1;
      while k <= itemSeq
        invariant 1 <= k <= itemSeq + 1
        invariant forall j :: j in items && j < k ==> items[j].barcode != Some(barcode)
      {
        if k in items && items[k].barcode == Some(barcode) {
          FindByBarcodeUnique(Snapshot(), barcode, k);
          return Ok(items[k]);
        }
        k := k + 1;
      }
      r := Err(NotFound);
    }

    // ------------------------------------------------------ movement tables

    /** The INSERT INTO stock_ins statement. */
    method InsertStockInRecord(s: StockIn, now: Timestamp) returns (r: Result<int>)
      requires Valid()
      modifies this
      ensures Valid()
      ensures Step(Snapshot(), r) == InsertStockInRow(old(Snapshot()), s, now)
    {
      InsertStockInRowSpec(Snapshot(), s, now);
      var id := if s.id > 0 then s.id else stockInSeq + 1;
      if id in stockIns {
        return Err(ConstraintViolation);
      }
      stockIns := stockIns[id := s.(id := id, createdAt := now)];
      stockInSeq := Max(stockInSeq, id);
      r := Ok(id);
    }

    /** The INSERT INTO sales_items statement. */
    method InsertSaleRecord(s: SalesItem, now: Timestamp) returns (r: Result<int>)
      requires Valid()
      modifies this
      ensures Valid()
      ensures Step(Snapshot(), r) == InsertSaleRow(old(Snapshot()), s, now)
    {
      InsertSaleRowSpec(Snapshot(), s, now);
      var id := if s.id > 0 then s.id else saleSeq + 1;
      if id in sales {
        return Err(ConstraintViolation);
      }
      sales := sales[id := s.(id := id, createdAt := now)];
      saleSeq := Max(saleSeq, id);
      r := Ok(id);
    }

    method GetStockInItem(id: int) returns (r: Result<StockIn>)
      ensures r.Ok? <==> id in stockIns
      ensures r.Ok? ==> r.value == stockIns[id]
      ensures r.Err? ==> r.error == NotFound
    {
      if id in stockIns {
        r := Ok(stockIns[id]);
      } else {
        r := Err(NotFound);
      }
    }

    /**
     * search_stock_in_items: only the invoice_no and batch_no columns are accepted;
     * the result is every stock-in whose column contains the query, in id order.
     */
    method SearchStockInItems(column: string, query: string) returns (r: Result<seq<StockIn>>)
      requires Valid()
      ensures r.Err? <==> column != "invoice_no" && column != "batch_no"
      ensures r.Err? ==> r.error == InvalidArgument
      ensures r.Ok? ==> forall x :: x in r.value <==>
                          x in stockIns.Values && Contains(ColumnText(x, column), query)
      ensures r.Ok? ==> forall j, j' :: 0 <= j < j' < |r.value| ==> r.value[j].id < r.value[j'].id
    {
      if column != "invoice_no" && column != "batch_no" {
        return Err(InvalidArgument);
      }
      var found: seq<StockIn> := [];
      var k := 1;
      while k <= stockInSeq
        invariant 1 <= k <= stockInSeq + 1
        invariant forall x :: x in found <==>
                    x.id in stockIns && x.id < k && stockIns[x.id] == x && Contains(ColumnText(x, column), query)
        invariant forall j, j' :: 0 <= j < j' < |found| ==> found[j].id < found[j'].id
        invariant forall j :: 0 <= j < |found| ==> found[j].id < k
      {
        if k in stockIns && Contains(ColumnText(stockIns[k], column), query) {
          found := found + [stockIns[k]];
        }
        k := k + 1;
      }
      forall key | key in stockIns && Contains(ColumnText(stockIns[key], column), query)
        ensures stockIns[key] in found
      {
        assert stockIns[key].id == key;
      }
      r := Ok(found);
    }

    // ------------------------------------------------------------- ledger

    /** create_stock_in(s, transaction). */
    method CreateStockIn(s: StockIn, now: Timestamp, transaction: bool) returns (r: Result<int>)
      requires Valid()
      modifies this
      ensures Valid()
      ensures Step(Snapshot(), r) == (if transaction then Ledger.CreateStockIn(old(Snapshot()), s, now)
                                      else Ledger.ApplyStockIn(old(Snapshot()), s, now))
    {
      var saved := Snapshot();
      var inserted := InsertStockInRecord(s, now);
      if inserted.Err? {
        if transaction { Rollback(saved); }
        return inserted;
      }
      var got := GetInventoryItem(s.itemId);
      if got.Err? {
        if transaction { Rollback(saved); }
        return Err(got.error);
      }
      var item := got.value;
      item := item.(quantity := item.quantity + s.quantity);
      // Writing back a row just read cannot fail: its id is positive and its key is its own.
      UpdateQuantitySucceeds(Snapshot(), s.itemId, item.quantity);
      var updated := UpdateInventoryItem(item);
      assert updated.Ok?;
      r := inserted;
    }

    /** create_sales_item(s, transaction), with the stock check and decrement. */
    method CreateSalesItem(s: SalesItem, now: Timestamp, transaction: bool) returns (r: Result<int>)
      requires Valid()
      modifies this
      ensures Valid()
      ensures Step(Snapshot(), r) == (if transaction then Ledger.CreateSale(old(Snapshot()), s, now)
                                      else Ledger.ApplySale(old(Snapshot()), s, now))
    {
      var saved := Snapshot();
      var inserted := InsertSaleRecord(s, now);
      if inserted.Err? {
        if transaction { Rollback(saved); }
        return inserted;
      }
      var got := GetInventoryItem(s.itemId);
      if got.Err? {
        if transaction { Rollback(saved); }
        return Err(got.error);
      }
      var item := got.value;
      if s.quantity > item.quantity {
        if transaction { Rollback(saved); }
        return Err(InsufficientQuantity(s.itemId, s.quantity, item.quantity));
      }
      item := item.(quantity := item.quantity - s.quantity);
      UpdateQuantitySucceeds(Snapshot(), s.itemId, item.quantity);
      var updated := UpdateInventoryItem(item);
      assert updated.Ok?;
      r := inserted;
    }

    /** delete_stock_in_item(id). */
    method DeleteStockInItem(id: int) returns (r: Result<()>)
      requires Valid()
      modifies this
      ensures Valid()
      ensures Step(Snapshot(), r) == Ledger.ReverseStockIn(old(Snapshot()), id)
    {
      var row := GetStockInItem(id);
      if row.Err? {
        return Err(row.error);
      }
      var got := GetInventoryItem(row.value.itemId);
      if got.Err? {
        return Err(got.error);
      }
      stockIns := stockIns - {id};
      var item := got.value;
      item := item.(quantity := item.quantity - row.value.quantity);
      UpdateQuantitySucceeds(Snapshot(), row.value.itemId, item.quantity);
      var updated := UpdateInventoryItem(item);
      assert updated.Ok?;
      r := Ok(());
    }

    /** create_stock_in_items: create_stock_in(s, false) for each request inside one transaction. */
    method CreateStockInItems(reqs: seq<StockIn>, now: Timestamp) returns (r: Result<seq<int>>)
      requires Valid()
      modifies this
      ensures Valid()
      ensures Step(Snapshot(), r) == Ledger.StockInBatch(old(Snapshot()), reqs, now)
    {
      var saved := Snapshot();
      var ids: seq<int> := [];
      var i := 0;
      while i < |reqs|
        invariant 0 <= i <= |reqs| && Valid()
        invariant Fold(Ledger.StockInStep(now), saved, reqs[..i]) == Step(Snapshot(), Ok(ids))
      {
        ghost var before := Snapshot();
        var one := CreateStockIn(reqs[i], now, false);
        assert Ledger.StockInStep(now)(before, reqs[i]) == Step(Snapshot(), one);
        FoldNext(Ledger.StockInStep(now), saved, reqs, i);
        if one.Err? {
          FoldStopped(Ledger.StockInStep(now), saved, reqs, i + 1);
          Rollback(saved);
          return Err(one.error);
        }
        ids := ids + [one.value];
        i := i + 1;
      }
      assert reqs[..i] == reqs;
      r := Ok(ids);
    }

    /**
     * create_sales_items: create_sales_item(s, false) for each request inside one
     * transaction, returning the sale ids in request order.
     */
    method CreateSalesItems(reqs: seq<SalesItem>, now: Timestamp) returns (r: Result<seq<int>>)
      requires Valid()
      modifies this
      ensures Valid()
      ensures Step(Snapshot(), r) == Ledger.SalesBatch(old(Snapshot()), reqs, now)
    {
      var saved := Snapshot();
      var ids: seq<int> := [];
      var i := 0;
      while i < |reqs|
        invariant 0 <= i <= |reqs| && Valid()
        invariant Fold(Ledger.SaleStep(now), saved, reqs[..i]) == Step(Snapshot(), Ok(ids))
      {
        ghost var before := Snapshot();
        var one := CreateSalesItem(reqs[i], now, false);
        assert Ledger.SaleStep(now)(before, reqs[i]) == Step(Snapshot(), one);
        FoldNext(Ledger.SaleStep(now), saved, reqs, i);
        if one.Err? {
          FoldStopped(Ledger.SaleStep(now), saved, reqs, i + 1);
          Rollback(saved);
          return Err(one.error);
        }
        ids := ids + [one.value];
        i := i + 1;
      }
      assert reqs[..i] == reqs;
      r := Ok(ids);
    }
  }
}
