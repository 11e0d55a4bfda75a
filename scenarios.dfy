/**
 * The repository's ledger test cases, restated as lemmas about the model.
 */
module Scenarios {
  import opened Wrappers
  import opened Records
  import opened Tables
  import opened Store
  import opened Ledger

  function Doxycycline(quantity: int): InventoryItem {
    InventoryItem(1, "Doxycycline", "GSK", quantity, 10.0, 15.0, "2022-12-31", 0, None)
  }

  function Receipt(id: int, quantity: int, invoice: string, batch: string): StockIn {
    StockIn(id, 1, quantity, invoice, batch, "2022-12-31", 0)
  }

  /** The tables after create_inventory_item(Doxycycline) on an empty database. */
  lemma OneItem(quantity: int, now: Timestamp)
    ensures InsertItem(Empty, Doxycycline(quantity), now)
            == Step(Db(map[1 := Doxycycline(quantity).(createdAt := now)], 1, map[], 0, map[], 0), Ok(1))
    ensures Valid(InsertItem(Empty, Doxycycline(quantity), now).db)
  {
    InsertItemSpec(Empty, Doxycycline(quantity), now);
  }

  /** An item of the multi-insert test: 100 units from GSK, expiring 2022-12-31. */
  function TestItem(id: int, name: string): InventoryItem {
    InventoryItem(id, name, "GSK", 100, 10.0, 15.0, "2022-12-31", 0, None)
  }

  function FiveItems(): seq<InventoryItem> {
    [ TestItem(1, "Paracetamol"), TestItem(2, "Amoxicillin"), TestItem(3, "Ibuprofen"),
      TestItem(4, "Ciprofloxacin"), TestItem(5, "Azithromycin") ]
  }

  /**
   * Items numbered 1 .. n with distinct names go into empty tables under their own
   * ids, in order, each row holding its item's data.
   */
  lemma {:induction false} InsertNumbered(xs: seq<InventoryItem>, now: Timestamp)
    requires forall j :: 0 <= j < |xs| ==> xs[j].id == j + 1
    requires forall j, j' :: 0 <= j < j' < |xs| ==> xs[j].name != xs[j'].name
    ensures var st := InsertItems(Empty, xs, now);
            && st.result == Ok(seq(|xs|, j => j + 1))
            && (forall k :: k in st.db.items <==> 1 <= k <= |xs|)
            && (forall k :: 1 <= k <= |xs| ==> st.db.items[k] == NewItemRow(k, xs[k - 1], now))
            && st.db.itemSeq == |xs|
    decreases |xs|
  {
    if xs != [] {
      var n := |xs| - 1;
      var init := xs[..n];
      InsertNumbered(init, now);
      var prev := InsertItems(Empty, init, now);
      forall k | k in prev.db.items
        ensures !SameNameBrand(prev.db.items[k], xs[n])
      {
        assert prev.db.items[k].name == xs[k - 1].name;
      }
      var one := InsertItem(prev.db, xs[n], now);
      assert one.result == Ok(n + 1);
      assert InsertItemStep(now)(prev.db, xs[n]) == one;
      FoldNext(InsertItemStep(now), Empty, xs, n);
      assert xs[..n + 1] == xs;
      assert InsertItems(Empty, xs, now) == Step(one.db, Ok(prev.result.value + [n + 1]));
      var ids: seq<int> := seq(n, j => j + 1) + [n + 1];
      assert forall j | 0 <= j < |xs| :: ids[j] == j + 1;
      assert ids == seq(|xs|, j => j + 1);
    } else {
      assert seq(0, j => j + 1) == [];
    }
  }

  /** TestInsertInventoryItems: the five items go in with their own ids 1 .. 5. */
  lemma InsertItemsKeepsGivenIds(now: Timestamp)
    ensures var st := InsertItems(Empty, FiveItems(), now);
            && st.result == Ok([1, 2, 3, 4, 5])
            && (forall k :: k in st.db.items <==> 1 <= k <= 5)
            && forall j :: 0 <= j < 5 ==> st.db.items[j + 1].name == FiveItems()[j].name
  {
    var xs := FiveItems();
    assert xs[0].name[0] == 'P' && xs[1].name[0] == 'A' && xs[2].name[0] == 'I';
    assert xs[3].name[0] == 'C' && xs[4].name[1] == 'z' && xs[1].name[1] == 'm';
    InsertNumbered(xs, now);
    assert seq(5, j => j + 1) == [1, 2, 3, 4, 5];
  }

  /** TestCreateStockInItem: 100 in stock, a receipt of 100, so 200. */
  lemma StockInAddsQuantity(now: Timestamp)
    ensures var db := InsertItem(Empty, Doxycycline(100), now).db;
            var st := CreateStockIn(db, Receipt(1, 100, "12345", "B1034"), now);
            st.result == Ok(1) && st.db.items.Keys == {1} && st.db.items[1].quantity == 200
  {
    OneItem(100, now);
    var db := InsertItem(Empty, Doxycycline(100), now).db;
    ApplyStockInOutcome(db, Receipt(1, 100, "12345", "B1034"), now);
    ApplyStockInSpec(db, Receipt(1, 100, "12345", "B1034"), now);
  }

  /** TestCreateStockInItems: 100 in stock, a batch of 100 and 200, so 400; ids kept. */
  lemma StockInBatchAddsQuantities(now: Timestamp)
    ensures var db := InsertItem(Empty, Doxycycline(100), now).db;
            var reqs := [Receipt(2, 100, "12345", "B1034"), Receipt(3, 200, "12346", "B1035")];
            var b := StockInBatch(db, reqs, now);
            b.result == Ok([2, 3]) && b.db.items[1].quantity == 400
  {
    OneItem(100, now);
    var db := InsertItem(Empty, Doxycycline(100), now).db;
    var reqs := [Receipt(2, 100, "12345", "B1034"), Receipt(3, 200, "12346", "B1035")];
    var f := StockInStep(now);
    ApplyStockInOutcome(db, reqs[0], now);
    ApplyStockInSpec(db, reqs[0], now);
    var d1 := ApplyStockIn(db, reqs[0], now).db;
    assert d1.items[1].quantity == 200;
    ApplyStockInOutcome(d1, reqs[1], now);
    ApplyStockInSpec(d1, reqs[1], now);
    var d2 := ApplyStockIn(d1, reqs[1], now).db;
    assert d2.items[1].quantity == 400;
    assert f(db, reqs[0]) == ApplyStockIn(db, reqs[0], now);
    assert f(d1, reqs[1]) == ApplyStockIn(d1, reqs[1], now);
    assert reqs[..1] == [reqs[0]] && reqs[..1][..0] == [];
    assert Fold(f, db, reqs[..1][..0]) == Step(db, Ok([]));
    assert [] + [2] == [2] && [2] + [3] == [2, 3];
    assert Fold(f, db, reqs[..1]) == Step(d1, Ok([2]));
    assert Fold(f, db, reqs) == Step(d2, Ok([2, 3]));
  }

  /** TestDeleteStockInItem: 200 in stock, a receipt of 100, then its deletion, so 200. */
  lemma DeleteStockInRestoresQuantity(now: Timestamp)
    ensures var db := InsertItem(Empty, Doxycycline(200), now).db;
            var st := CreateStockIn(db, Receipt(1, 100, "12345", "B1034"), now);
            st.result == Ok(1)
            && ReverseStockIn(st.db, 1).result.Ok?
            && ReverseStockIn(st.db, 1).db.items[1].quantity == 200
  {
    OneItem(200, now);
    var db := InsertItem(Empty, Doxycycline(200), now).db;
    ApplyStockInOutcome(db, Receipt(1, 100, "12345", "B1034"), now);
    ApplyStockInSpec(db, Receipt(1, 100, "12345", "B1034"), now);
    StockInThenReverse(db, Receipt(1, 100, "12345", "B1034"), now);
  }

  function Stocked(): Db {
    Db(map[1 := InventoryItem(1, "Paracetamol", "GSK", 100, 10.0, 15.0, "", 0, None),
           2 := InventoryItem(2, "Ibuprofen", "GSK", 100, 10.0, 15.0, "", 0, None)],
       2, map[], 0, map[], 0)
  }

  /**
   * CantMakeSalesIfOutOfStock: selling 200 and 150 from stocks of 100 each.  The
   * checked batch fails on the first sale and changes nothing; the batch as written
   * accepts both sales and leaves both stocks at 100.
   */
  lemma CantMakeSalesIfOutOfStock(now: Timestamp)
    ensures var reqs := [SalesItem(1, 1, "Paracetamol", 200, 10.0, 500.0, 0),
                         SalesItem(2, 2, "Ibuprofen", 150, 10.0, 15.0, 0)];
            && SalesBatch(Stocked(), reqs, now) == Step(Stocked(), Err(InsufficientQuantity(1, 200, 100)))
            && SalesBatchAsWritten(Stocked(), reqs, now).result == Ok([0, 0, 1, 2])
            && SalesBatchAsWritten(Stocked(), reqs, now).db.items == Stocked().items
  {
    var reqs := [SalesItem(1, 1, "Paracetamol", 200, 10.0, 500.0, 0),
                 SalesItem(2, 2, "Ibuprofen", 150, 10.0, 15.0, 0)];
    var db := Stocked();
    assert Valid(db);
    assert reqs[..1] == [reqs[0]] && reqs[..1][..0] == [];
    var f := SaleStep(now);
    ApplySaleOutcome(db, reqs[0], now);
    assert f(db, reqs[0]) == ApplySale(db, reqs[0], now);
    var bad := ApplySale(db, reqs[0], now);
    assert bad.result == Err(InsufficientQuantity(1, 200, 100));
    assert reqs[..1] == [reqs[0]] && reqs[..1][..0] == [];
    assert Fold(f, db, reqs[..1][..0]) == Step(db, Ok([]));
    assert Fold(f, db, reqs[..1]) == Step(bad.db, Err(InsufficientQuantity(1, 200, 100)));
    assert Fold(f, db, reqs).result == Err(InsufficientQuantity(1, 200, 100));

    var g := SaleAsWrittenStep(now);
    InsertSaleRowSpec(db, reqs[0], now);
    var w1 := ApplySaleAsWritten(db, reqs[0], now);
    assert g(db, reqs[0]) == w1 && w1.result == Ok(1) && w1.db.items == db.items;
    InsertSaleRowSpec(w1.db, reqs[1], now);
    var w2 := ApplySaleAsWritten(w1.db, reqs[1], now);
    assert g(w1.db, reqs[1]) == w2 && w2.result == Ok(2) && w2.db.items == db.items;
    assert Fold(g, db, reqs[..1][..0]) == Step(db, Ok([]));
    assert [] + [1] == [1] && [1] + [2] == [1, 2];
    assert Fold(g, db, reqs[..1]) == Step(w1.db, Ok([1]));
    assert Fold(g, db, reqs) == Step(w2.db, Ok([1, 2]));
    assert seq(2, _ => 0) + [1, 2] == [0, 0, 1, 2];
  }
}
