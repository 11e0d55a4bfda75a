/**
 * The movement processor: stock-ins, their reversal, sales, and the batch versions
 * of both.  Each movement is the sequence of statements the source runs (insert the
 * movement row, re-read the item, write the item back with a new quantity); a
 * transaction is modelled by keeping the state before BEGIN and returning to it when
 * any statement fails.
 *
 * The ledger invariant is stated per item as OpeningBalance (Tables): the quantity
 * minus everything received plus everything sold.  Every successful movement and
 * batch leaves it unchanged, except the sale as the source writes it.
 */
module Ledger {
  import opened Wrappers
  import opened Records
  import opened Tables
  import opened Store

  /**
   * BEGIN ... COMMIT, with ROLLBACK on an exception: on failure the database is the
   * one before BEGIN, and the error is passed on.
   */
  function Atomically<T>(before: Db, st: Step<T>): (r: Step<T>)
    ensures r.result == st.result
    ensures st.result.Ok? ==> r.db == st.db
    ensures st.result.Err? ==> r.db == before
  {
    if st.result.Ok? then st else Step(before, st.result)
  }

  /** The item row with a quantity changed by delta. */
  function Adjusted(items: map<int, InventoryItem>, id: int, delta: int): map<int, InventoryItem>
    requires id in items
  {
    items[id := items[id].(quantity := items[id].quantity + delta)]
  }

  // ------------------------------------------------------------- stock-in

  /**
   * create_stock_in without its own transaction: insert the stock-in row, re-read
   * the item, raise its quantity and write it back.  A failure after the insert
   * leaves the row in place for the enclosing ROLLBACK to remove.
   */
  function ApplyStockIn(db: Db, s: StockIn, now: Timestamp): (st: Step<int>)
    ensures st.result.Ok? ==>
              && s.itemId in db.items
              && st.result.value !in db.stockIns && st.result.value in st.db.stockIns
  {
    var ins := InsertStockInRow(db, s, now);
    if ins.result.Err? then ins
    else
      match GetItem(ins.db, s.itemId)
      case Err(e) => Step(ins.db, Err(e))
      case Ok(item) =>
        var upd := UpdateItem(ins.db, item.(quantity := item.quantity + s.quantity));
        if upd.result.Err? then Step(upd.db, Err(upd.result.error)) else Step(upd.db, ins.result)
  }

  /** create_stock_in(s) with its default transaction = true. */
  function CreateStockIn(db: Db, s: StockIn, now: Timestamp): (st: Step<int>)
    ensures st.result.Err? ==> st.db == db
  {
    Atomically(db, ApplyStockIn(db, s, now))
  }

  /** When a stock-in succeeds and, otherwise, which error it reports. */
  lemma ApplyStockInOutcome(db: Db, s: StockIn, now: Timestamp)
    requires Valid(db)
    ensures var st := ApplyStockIn(db, s, now);
            var idFree := s.id <= 0 || s.id !in db.stockIns;
            && (st.result.Ok? <==> idFree && s.itemId in db.items)
            && (!idFree ==> st.result == Err(ConstraintViolation))
            && (idFree && s.itemId !in db.items ==> st.result == Err(NotFound))
  {
    InsertStockInRowSpec(db, s, now);
    var ins := InsertStockInRow(db, s, now);
    if ins.result.Ok? && s.itemId in db.items {
      UpdateQuantitySucceeds(ins.db, s.itemId, db.items[s.itemId].quantity + s.quantity);
    }
  }

  /** The state a stock-in reaches: one new stock-in row and the item's quantity raised by it. */
  lemma ApplyStockInSpec(db: Db, s: StockIn, now: Timestamp)
    requires Valid(db)
    ensures var st := ApplyStockIn(db, s, now);
            && Valid(st.db)
            && st.db.items.Keys == db.items.Keys
            && st.db.sales == db.sales
            && (forall k :: k in db.stockIns ==> k in st.db.stockIns && st.db.stockIns[k] == db.stockIns[k])
            && (st.result.Ok? ==>
                  var id := st.result.value;
                  && id > 0 && id !in db.stockIns && (s.id > 0 ==> id == s.id)
                  && s.itemId in db.items
                  && st.db.stockIns == db.stockIns[id := s.(id := id, createdAt := now)]
                  && st.db.items == Adjusted(db.items, s.itemId, s.quantity))
  {
    InsertStockInRowSpec(db, s, now);
    var ins := InsertStockInRow(db, s, now);
    if ins.result.Ok? && s.itemId in db.items {
      var item := ins.db.items[s.itemId];
      UpdateQuantitySucceeds(ins.db, s.itemId, item.quantity + s.quantity);
      var upd := UpdateItem(ins.db, item.(quantity := item.quantity + s.quantity));
      assert ApplyStockIn(db, s, now) == Step(upd.db, ins.result);
    }
  }

  /** create_stock_in on a missing item: the row is written, then the re-read throws. */
  lemma StockInUnknownItem(db: Db, s: StockIn, now: Timestamp)
    requires Valid(db) && s.itemId !in db.items && (s.id <= 0 || s.id !in db.stockIns)
    ensures ApplyStockIn(db, s, now).result == Err(NotFound)
    ensures ApplyStockIn(db, s, now).db.stockIns.Keys == db.stockIns.Keys + {AssignedId(s.id, db.stockInSeq)}
    ensures CreateStockIn(db, s, now) == Step(db, Err(NotFound))
  {
    InsertStockInRowSpec(db, s, now);
  }

  /** A successful stock-in keeps every item's opening balance. */
  lemma ApplyStockInBalance(db: Db, s: StockIn, now: Timestamp, i: int)
    requires Valid(db) && i in db.items && ApplyStockIn(db, s, now).result.Ok?
    ensures OpeningBalance(ApplyStockIn(db, s, now).db, i) == OpeningBalance(db, i)
  {
    ApplyStockInSpec(db, s, now);
    InsertStockInRowTotals(db, s, now, i);
    var ins := InsertStockInRow(db, s, now);
    var st := ApplyStockIn(db, s, now);
    assert TotalReceived(st.db, i) == TotalReceived(ins.db, i);
    assert TotalSold(st.db, i) == TotalSold(ins.db, i);
  }

  // ------------------------------------------------------ stock-in delete

  /**
   * delete_stock_in_item: read the stock-in and its item outside any transaction
   * (either read may throw), then delete the row and lower the item's quantity by
   * the row's quantity inside one.  The quantity may become negative.
   */
  function ReverseStockIn(db: Db, id: int): (st: Step<()>)
    ensures st.result.Err? ==> st.db == db
    ensures st.result.Ok? ==> id in db.stockIns && st.db.stockIns.Keys == db.stockIns.Keys - {id}
  {
    match GetStockIn(db, id)
    case Err(e) => Step(db, Err(e))
    case Ok(row) =>
      match GetItem(db, row.itemId)
      case Err(e) => Step(db, Err(e))
      case Ok(item) =>
        Atomically(db, UpdateItem(DeleteStockInRow(db, id), item.(quantity := item.quantity - row.quantity)))
  }

  lemma ReverseStockInSpec(db: Db, id: int)
    requires Valid(db)
    ensures var st := ReverseStockIn(db, id);
            && Valid(st.db)
            && (st.result.Ok? <==> id in db.stockIns && db.stockIns[id].itemId in db.items)
            && (st.result.Err? ==> st.db == db && st.result.error == NotFound)
            && (st.result.Ok? ==>
                  var row := db.stockIns[id];
                  st.db == db.(stockIns := db.stockIns - {id},
                               items := Adjusted(db.items, row.itemId, -row.quantity)))
  {
    if id in db.stockIns && db.stockIns[id].itemId in db.items {
      var row := db.stockIns[id];
      UpdateQuantitySucceeds(DeleteStockInRow(db, id), row.itemId, db.items[row.itemId].quantity - row.quantity);
    }
  }

  lemma ReverseStockInBalance(db: Db, id: int, i: int)
    requires Valid(db) && i in db.items && ReverseStockIn(db, id).result.Ok?
    ensures OpeningBalance(ReverseStockIn(db, id).db, i) == OpeningBalance(db, i)
  {
    ReverseStockInSpec(db, id);
    DeleteStockInRowTotals(db, id, i);
    var d := DeleteStockInRow(db, id);
    var st := ReverseStockIn(db, id);
    assert TotalReceived(st.db, i) == TotalReceived(d, i);
    assert TotalSold(st.db, i) == TotalSold(d, i);
  }

  /** Deleting the stock-in just created restores the item table and the stock-in table. */
  lemma StockInThenReverse(db: Db, s: StockIn, now: Timestamp)
    requires Valid(db) && CreateStockIn(db, s, now).result.Ok?
    ensures var st := CreateStockIn(db, s, now);
            var back := ReverseStockIn(st.db, st.result.value);
            && back.result.Ok?
            && back.db.items == db.items
            && back.db.stockIns == db.stockIns
            && back.db.sales == db.sales
  {
    ApplyStockInSpec(db, s, now);
    var st := CreateStockIn(db, s, now);
    var id := st.result.value;
    ReverseStockInSpec(st.db, id);
    var back := ReverseStockIn(st.db, id);
    var it := db.items[s.itemId];
    assert it.(quantity := it.quantity + s.quantity).(quantity := it.quantity + s.quantity - s.quantity) == it;
    assert back.db.items == db.items;
    assert back.db.stockIns == db.stockIns;
  }

  // ----------------------------------------------------------------- sales

  /**
   * create_sales_item without its own transaction, with the stock check its comment
   * and its tests call for: insert the sale, re-read the item, reject a quantity
   * above the stock, otherwise lower the stock and write the item back.
   */
  function ApplySale(db: Db, s: SalesItem, now: Timestamp): (st: Step<int>)
    ensures st.result.Ok? ==>
              && s.itemId in db.items && s.quantity <= db.items[s.itemId].quantity
              && st.result.value !in db.sales && st.result.value in st.db.sales
  {
    var ins := InsertSaleRow(db, s, now);
    if ins.result.Err? then ins
    else
      match GetItem(ins.db, s.itemId)
      case Err(e) => Step(ins.db, Err(e))
      case Ok(item) =>
        if s.quantity > item.quantity then
          Step(ins.db, Err(InsufficientQuantity(s.itemId, s.quantity, item.quantity)))
        else
          var upd := UpdateItem(ins.db, item.(quantity := item.quantity - s.quantity));
          if upd.result.Err? then Step(upd.db, Err(upd.result.error)) else Step(upd.db, ins.result)
  }

  /**
   * create_sales_item as the source has it: insert the sale and re-read the item;
   * there is no stock check and the stock is not lowered.
   */
  function ApplySaleAsWritten(db: Db, s: SalesItem, now: Timestamp): (st: Step<int>)
    ensures st.db.items == db.items && st.db.stockIns == db.stockIns
    ensures st.result.Ok? ==> s.itemId in db.items
  {
    var ins := InsertSaleRow(db, s, now);
    if ins.result.Err? then ins
    else
      match GetItem(ins.db, s.itemId)
      case Err(e) => Step(ins.db, Err(e))
      case Ok(_) => ins
  }

  /** create_sales_item(s) with its default transaction = true. */
  function CreateSale(db: Db, s: SalesItem, now: Timestamp): (st: Step<int>)
    ensures st.result.Err? ==> st.db == db
  {
    Atomically(db, ApplySale(db, s, now))
  }

  /** When a sale succeeds and, otherwise, which error it reports. */
  lemma ApplySaleOutcome(db: Db, s: SalesItem, now: Timestamp)
    requires Valid(db)
    ensures var st := ApplySale(db, s, now);
            var idFree := s.id <= 0 || s.id !in db.sales;
            && (st.result.Ok? <==>
                  idFree && s.itemId in db.items && s.quantity <= db.items[s.itemId].quantity)
            && (!idFree ==> st.result == Err(ConstraintViolation))
            && (idFree && s.itemId !in db.items ==> st.result == Err(NotFound))
            && (idFree && s.itemId in db.items && s.quantity > db.items[s.itemId].quantity ==>
                  st.result == Err(InsufficientQuantity(s.itemId, s.quantity, db.items[s.itemId].quantity)))
  {
    InsertSaleRowSpec(db, s, now);
    var ins := InsertSaleRow(db, s, now);
    if ins.result.Ok? && s.itemId in db.items && s.quantity <= db.items[s.itemId].quantity {
      UpdateQuantitySucceeds(ins.db, s.itemId, db.items[s.itemId].quantity - s.quantity);
    }
  }

  /** The state a sale reaches: one new sale row and the item's stock lowered by its quantity. */
  lemma ApplySaleSpec(db: Db, s: SalesItem, now: Timestamp)
    requires Valid(db)
    ensures var st := ApplySale(db, s, now);
            && Valid(st.db)
            && st.db.items.Keys == db.items.Keys
            && st.db.stockIns == db.stockIns
            && (forall k :: k in db.sales ==> k in st.db.sales && st.db.sales[k] == db.sales[k])
            && (st.result.Ok? ==>
                  var id := st.result.value;
                  && id > 0 && id !in db.sales && (s.id > 0 ==> id == s.id)
                  && s.itemId in db.items
                  && st.db.sales == db.sales[id := s.(id := id, createdAt := now)]
                  && st.db.items == Adjusted(db.items, s.itemId, -s.quantity))
  {
    InsertSaleRowSpec(db, s, now);
    var ins := InsertSaleRow(db, s, now);
    if ins.result.Ok? && s.itemId in db.items && s.quantity <= db.items[s.itemId].quantity {
      var item := ins.db.items[s.itemId];
      UpdateQuantitySucceeds(ins.db, s.itemId, item.quantity - s.quantity);
      var upd := UpdateItem(ins.db, item.(quantity := item.quantity - s.quantity));
      assert ApplySale(db, s, now) == Step(upd.db, ins.result);
    }
  }

  /** A sale above the stock is refused and leaves the database as it was. */
  lemma SaleRejectsOversell(db: Db, s: SalesItem, now: Timestamp)
    requires Valid(db) && s.itemId in db.items && s.quantity > db.items[s.itemId].quantity
    ensures CreateSale(db, s, now).db == db
    ensures CreateSale(db, s, now).result.Err?
    ensures s.id <= 0 || s.id !in db.sales ==>
              CreateSale(db, s, now).result
                == Err(InsufficientQuantity(s.itemId, s.quantity, db.items[s.itemId].quantity))
  {
    ApplySaleOutcome(db, s, now);
  }

  lemma ApplySaleBalance(db: Db, s: SalesItem, now: Timestamp, i: int)
    requires Valid(db) && i in db.items && ApplySale(db, s, now).result.Ok?
    ensures OpeningBalance(ApplySale(db, s, now).db, i) == OpeningBalance(db, i)
  {
    ApplySaleSpec(db, s, now);
    InsertSaleRowTotals(db, s, now, i);
    var ins := InsertSaleRow(db, s, now);
    var st := ApplySale(db, s, now);
    assert TotalReceived(st.db, i) == TotalReceived(ins.db, i);
    assert TotalSold(st.db, i) == TotalSold(ins.db, i);
  }

  /** As written, a recorded sale leaves the stock alone, so the item's balance drifts by the sale. */
  lemma ApplySaleAsWrittenDrifts(db: Db, s: SalesItem, now: Timestamp)
    requires Valid(db) && ApplySaleAsWritten(db, s, now).result.Ok?
    ensures var st := ApplySaleAsWritten(db, s, now);
            && s.itemId in db.items
            && st.db.items == db.items
            && OpeningBalance(st.db, s.itemId) == OpeningBalance(db, s.itemId) + s.quantity
  {
    InsertSaleRowTotals(db, s, now, s.itemId);
  }

  /** The out-of-stock case: 200 sold from a stock of 100 is accepted as written and refused once checked. */
  lemma OversellAcceptedAsWritten()
    ensures var item := InventoryItem(1, "Paracetamol", "GSK", 100, 10.0, 15.0, "", 0, None);
            var db := Db(map[1 := item], 1, map[], 0, map[], 0);
            var sale := SalesItem(1, 1, "Paracetamol", 200, 10.0, 500.0, 0);
            && Valid(db)
            && ApplySaleAsWritten(db, sale, 0).result == Ok(1)
            && ApplySaleAsWritten(db, sale, 0).db.items[1].quantity == 100
            && OpeningBalance(ApplySaleAsWritten(db, sale, 0).db, 1) != OpeningBalance(db, 1)
            && CreateSale(db, sale, 0) == Step(db, Err(InsufficientQuantity(1, 200, 100)))
  {
    var item := InventoryItem(1, "Paracetamol", "GSK", 100, 10.0, 15.0, "", 0, None);
    var db := Db(map[1 := item], 1, map[], 0, map[], 0);
    var sale := SalesItem(1, 1, "Paracetamol", 200, 10.0, 500.0, 0);
    ApplySaleAsWrittenDrifts(db, sale, 0);
    SaleRejectsOversell(db, sale, 0);
  }

  // --------------------------------------------------------------- batches

  /** Per-item sums of the requested quantities of a batch. */
  function ReceivedIn(reqs: seq<StockIn>, i: int): int
    decreases |reqs|
  {
    if reqs == [] then 0 else ReceivedIn(reqs[..|reqs| - 1], i) + Received(i)(reqs[|reqs| - 1])
  }

  function SoldIn(reqs: seq<SalesItem>, i: int): int
    decreases |reqs|
  {
    if reqs == [] then 0 else SoldIn(reqs[..|reqs| - 1], i) + Sold(i)(reqs[|reqs| - 1])
  }

  function StockInStep(now: Timestamp): (Db, StockIn) -> Step<int> {
    (db: Db, s: StockIn) => ApplyStockIn(db, s, now)
  }

  /** The loop of create_stock_in_items: create_stock_in(s, false) for each request. */
  function StockInSequence(db: Db, reqs: seq<StockIn>, now: Timestamp): (st: Step<seq<int>>)
    ensures st.result.Ok? ==> |st.result.value| == |reqs|
  {
    Fold(StockInStep(now), db, reqs)
  }

  /** create_stock_in_items: the loop inside one transaction. */
  function StockInBatch(db: Db, reqs: seq<StockIn>, now: Timestamp): (b: Step<seq<int>>)
    ensures b.result.Ok? ==> |b.result.value| == |reqs|
    ensures b.result.Err? ==> b.db == db
  {
    Atomically(db, StockInSequence(db, reqs, now))
  }

  lemma {:induction false} StockInSequenceSpec(db: Db, reqs: seq<StockIn>, now: Timestamp)
    requires Valid(db)
    ensures var st := StockInSequence(db, reqs, now);
            && Valid(st.db)
            && st.db.items.Keys == db.items.Keys
            && st.db.sales == db.sales
            && (forall k :: k in db.stockIns ==> k in st.db.stockIns && st.db.stockIns[k] == db.stockIns[k])
    decreases |reqs|
  {
    if reqs != [] {
      var init := reqs[..|reqs| - 1];
      StockInSequenceSpec(db, init, now);
      var prev := StockInSequence(db, init, now);
      if prev.result.Ok? {
        ApplyStockInSpec(prev.db, reqs[|reqs| - 1], now);
      }
    }
  }

  /** The ids of a successful loop are new rows, distinct, and the explicit ones are kept. */
  lemma {:induction false} StockInSequenceIds(db: Db, reqs: seq<StockIn>, now: Timestamp)
    requires Valid(db) && StockInSequence(db, reqs, now).result.Ok?
    ensures var st := StockInSequence(db, reqs, now);
            var ids := st.result.value;
            && (forall j :: 0 <= j < |reqs| ==>
                  && ids[j] in st.db.stockIns && ids[j] !in db.stockIns
                  && st.db.stockIns[ids[j]] == reqs[j].(id := ids[j], createdAt := now)
                  && (reqs[j].id > 0 ==> ids[j] == reqs[j].id))
            && (forall j, j' :: 0 <= j < j' < |reqs| ==> ids[j] != ids[j'])
    decreases |reqs|
  {
    if reqs != [] {
      var init := reqs[..|reqs| - 1];
      StockInSequenceIds(db, init, now);
      StockInSequenceSpec(db, init, now);
      var prev := StockInSequence(db, init, now);
      ApplyStockInSpec(prev.db, reqs[|reqs| - 1], now);
    }
  }

  lemma {:induction false} StockInSequenceTotals(db: Db, reqs: seq<StockIn>, now: Timestamp, i: int)
    requires Valid(db) && i in db.items && StockInSequence(db, reqs, now).result.Ok?
    ensures var st := StockInSequence(db, reqs, now);
            && i in st.db.items
            && st.db.items[i].quantity == db.items[i].quantity + ReceivedIn(reqs, i)
            && OpeningBalance(st.db, i) == OpeningBalance(db, i)
    decreases |reqs|
  {
    if reqs != [] {
      var init := reqs[..|reqs| - 1];
      StockInSequenceSpec(db, init, now);
      StockInSequenceTotals(db, init, now, i);
      var prev := StockInSequence(db, init, now);
      ApplyStockInSpec(prev.db, reqs[|reqs| - 1], now);
      ApplyStockInBalance(prev.db, reqs[|reqs| - 1], now, i);
    }
  }

  /**
   * create_stock_in_items is all or nothing: on success every item's quantity rose by
   * its requested total; on failure nothing changed and the error is that of the
   * first request that failed, after all requests before it had succeeded.
   */
  lemma StockInBatchSpec(db: Db, reqs: seq<StockIn>, now: Timestamp)
    requires Valid(db)
    ensures var b := StockInBatch(db, reqs, now);
            && Valid(b.db)
            && (b.result.Ok? ==>
                  && |b.result.value| == |reqs|
                  && (forall j :: 0 <= j < |reqs| && reqs[j].id > 0 ==> b.result.value[j] == reqs[j].id)
                  && (forall j :: 0 <= j < |reqs| ==>
                        ApplyStockIn(StockInSequence(db, reqs[..j], now).db, reqs[j], now).result == Ok(b.result.value[j]))
                  && b.db.items.Keys == db.items.Keys
                  && forall i :: i in db.items ==>
                       && b.db.items[i].quantity == db.items[i].quantity + ReceivedIn(reqs, i)
                       && OpeningBalance(b.db, i) == OpeningBalance(db, i))
            && (b.result.Err? ==>
                  && b.db == db
                  && exists k :: 0 <= k < |reqs| && StockInSequence(db, reqs[..k], now).result.Ok?
                       && ApplyStockIn(StockInSequence(db, reqs[..k], now).db, reqs[k], now).result
                          == Err(b.result.error))
  {
    StockInSequenceSpec(db, reqs, now);
    var st := StockInSequence(db, reqs, now);
    if st.result.Ok? {
      StockInSequenceIds(db, reqs, now);
      forall j | 0 <= j < |reqs|
        ensures ApplyStockIn(StockInSequence(db, reqs[..j], now).db, reqs[j], now).result == Ok(st.result.value[j])
      {
        FoldSteps(StockInStep(now), db, reqs, j);
      }
      forall i | i in db.items
        ensures st.db.items[i].quantity == db.items[i].quantity + ReceivedIn(reqs, i)
        ensures OpeningBalance(st.db, i) == OpeningBalance(db, i)
      {
        StockInSequenceTotals(db, reqs, now, i);
      }
    } else {
      var k := FoldFailure(StockInStep(now), db, reqs);
    }
  }

  function SaleStep(now: Timestamp): (Db, SalesItem) -> Step<int> {
    (db: Db, s: SalesItem) => ApplySale(db, s, now)
  }

  function SaleAsWrittenStep(now: Timestamp): (Db, SalesItem) -> Step<int> {
    (db: Db, s: SalesItem) => ApplySaleAsWritten(db, s, now)
  }

  /** The loop of create_sales_items: create_sales_item(s, false) for each request. */
  function SaleSequence(db: Db, reqs: seq<SalesItem>, now: Timestamp): (st: Step<seq<int>>)
    ensures st.result.Ok? ==> |st.result.value| == |reqs|
  {
    Fold(SaleStep(now), db, reqs)
  }

  /** create_sales_items with checked sales, returning the sale ids in order. */
  function SalesBatch(db: Db, reqs: seq<SalesItem>, now: Timestamp): (b: Step<seq<int>>)
    ensures b.result.Ok? ==> |b.result.value| == |reqs|
    ensures b.result.Err? ==> b.db == db
  {
    Atomically(db, SaleSequence(db, reqs, now))
  }

  /**
   * create_sales_items as the source has it: unchecked sales, and the id vector is
   * constructed with one zero per request before the loop appends the real ids.
   */
  function SalesBatchAsWritten(db: Db, reqs: seq<SalesItem>, now: Timestamp): (b: Step<seq<int>>)
    ensures b.result.Ok? ==> |b.result.value| == 2 * |reqs|
    ensures b.result.Err? ==> b.db == db
  {
    var b := Atomically(db, Fold(SaleAsWrittenStep(now), db, reqs));
    if b.result.Ok? then Step(b.db, Ok(seq(|reqs|, _ => 0) + b.result.value)) else b
  }

  lemma {:induction false} SaleSequenceSpec(db: Db, reqs: seq<SalesItem>, now: Timestamp)
    requires Valid(db)
    ensures var st := SaleSequence(db, reqs, now);
            && Valid(st.db)
            && st.db.items.Keys == db.items.Keys
            && st.db.stockIns == db.stockIns
            && (forall k :: k in db.sales ==> k in st.db.sales && st.db.sales[k] == db.sales[k])
    decreases |reqs|
  {
    if reqs != [] {
      var init := reqs[..|reqs| - 1];
      SaleSequenceSpec(db, init, now);
      var prev := SaleSequence(db, init, now);
      if prev.result.Ok? {
        ApplySaleSpec(prev.db, reqs[|reqs| - 1], now);
      }
    }
  }

  /** The ids of a successful loop are new rows, distinct, and the explicit ones are kept. */
  lemma {:induction false} SaleSequenceIds(db: Db, reqs: seq<SalesItem>, now: Timestamp)
    requires Valid(db) && SaleSequence(db, reqs, now).result.Ok?
    ensures var st := SaleSequence(db, reqs, now);
            var ids := st.result.value;
            && (forall j :: 0 <= j < |reqs| ==>
                  && ids[j] in st.db.sales && ids[j] !in db.sales
                  && st.db.sales[ids[j]] == reqs[j].(id := ids[j], createdAt := now)
                  && (reqs[j].id > 0 ==> ids[j] == reqs[j].id))
            && (forall j, j' :: 0 <= j < j' < |reqs| ==> ids[j] != ids[j'])
    decreases |reqs|
  {
    if reqs != [] {
      var init := reqs[..|reqs| - 1];
      SaleSequenceIds(db, init, now);
      SaleSequenceSpec(db, init, now);
      var prev := SaleSequence(db, init, now);
      ApplySaleSpec(prev.db, reqs[|reqs| - 1], now);
    }
  }

  lemma {:induction false} SaleSequenceTotals(db: Db, reqs: seq<SalesItem>, now: Timestamp, i: int)
    requires Valid(db) && i in db.items && SaleSequence(db, reqs, now).result.Ok?
    ensures var st := SaleSequence(db, reqs, now);
            && i in st.db.items
            && st.db.items[i].quantity == db.items[i].quantity - SoldIn(reqs, i)
            && OpeningBalance(st.db, i) == OpeningBalance(db, i)
    decreases |reqs|
  {
    if reqs != [] {
      var init := reqs[..|reqs| - 1];
      SaleSequenceSpec(db, init, now);
      SaleSequenceTotals(db, init, now, i);
      var prev := SaleSequence(db, init, now);
      ApplySaleSpec(prev.db, reqs[|reqs| - 1], now);
      ApplySaleBalance(prev.db, reqs[|reqs| - 1], now, i);
    }
  }

  /**
   * create_sales_items, checked, is all or nothing: on success it returns one id per
   * request, in request order, and every item's stock fell by its requested total;
   * on failure nothing changed and the error is that of the first failing request.
   */
  lemma SalesBatchSpec(db: Db, reqs: seq<SalesItem>, now: Timestamp)
    requires Valid(db)
    ensures var b := SalesBatch(db, reqs, now);
            && Valid(b.db)
            && (b.result.Ok? ==>
                  && |b.result.value| == |reqs|
                  && (forall j :: 0 <= j < |reqs| && reqs[j].id > 0 ==> b.result.value[j] == reqs[j].id)
                  && (forall j :: 0 <= j < |reqs| ==>
                        ApplySale(SaleSequence(db, reqs[..j], now).db, reqs[j], now).result == Ok(b.result.value[j]))
                  && b.db.items.Keys == db.items.Keys
                  && forall i :: i in db.items ==>
                       && b.db.items[i].quantity == db.items[i].quantity - SoldIn(reqs, i)
                       && OpeningBalance(b.db, i) == OpeningBalance(db, i))
            && (b.result.Err? ==>
                  && b.db == db
                  && exists k :: 0 <= k < |reqs| && SaleSequence(db, reqs[..k], now).result.Ok?
                       && ApplySale(SaleSequence(db, reqs[..k], now).db, reqs[k], now).result
                          == Err(b.result.error))
  {
    SaleSequenceSpec(db, reqs, now);
    var st := SaleSequence(db, reqs, now);
    if st.result.Ok? {
      SaleSequenceIds(db, reqs, now);
      forall j | 0 <= j < |reqs|
        ensures ApplySale(SaleSequence(db, reqs[..j], now).db, reqs[j], now).result == Ok(st.result.value[j])
      {
        FoldSteps(SaleStep(now), db, reqs, j);
      }
      forall i | i in db.items
        ensures st.db.items[i].quantity == db.items[i].quantity - SoldIn(reqs, i)
        ensures OpeningBalance(st.db, i) == OpeningBalance(db, i)
      {
        SaleSequenceTotals(db, reqs, now, i);
      }
    } else {
      var k := FoldFailure(SaleStep(now), db, reqs);
    }
  }

  /**
   * As written, a successful batch of n sales returns 2n ids: first n zeros, then
   * the id of each unchecked sale in request order.
   */
  lemma SalesBatchAsWrittenLeadingZeros(db: Db, reqs: seq<SalesItem>, now: Timestamp)
    requires SalesBatchAsWritten(db, reqs, now).result.Ok?
    ensures var ids := SalesBatchAsWritten(db, reqs, now).result.value;
            && |ids| == 2 * |reqs|
            && (forall j :: 0 <= j < |reqs| ==> ids[j] == 0)
            && forall j :: 0 <= j < |reqs| ==>
                 ApplySaleAsWritten(Fold(SaleAsWrittenStep(now), db, reqs[..j]).db, reqs[j], now).result
                   == Ok(ids[|reqs| + j])
  {
    var st := Fold(SaleAsWrittenStep(now), db, reqs);
    forall j | 0 <= j < |reqs|
      ensures ApplySaleAsWritten(Fold(SaleAsWrittenStep(now), db, reqs[..j]).db, reqs[j], now).result
                == Ok(st.result.value[j])
    {
      FoldSteps(SaleAsWrittenStep(now), db, reqs, j);
    }
  }
}
