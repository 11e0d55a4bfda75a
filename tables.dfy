/**
 * The three tables of the database as one value, the constraints SQLite keeps on
 * them, the row-level statements on the two movement tables, and the per-item sums of
 * movement quantities that the ledger invariant is stated with.
 */
module Tables {
  import opened Records

  /**
   * Each table is a map from row id to row.  The *Seq fields play the part of
   * SQLite's AUTOINCREMENT sequence: the largest id the table has ever used.
   */
  datatype Db = Db(
    items: map<int, InventoryItem>, itemSeq: int,
    sales: map<int, SalesItem>, saleSeq: int,
    stockIns: map<int, StockIn>, stockInSeq: int)

  /** Freshly created tables (create_tables). */
  const Empty: Db := Db(map[], 0, map[], 0, map[], 0)

  /**
   * The outcome of running some statements: the database they reached and what
   * they returned.  The database part is kept on failure too, because inside an open
   * transaction the statements before the failing one stay applied until ROLLBACK.
   */
  datatype Step<T> = Step(db: Db, result: Result<T>)

  function Max(a: int, b: int): int {
    if a < b then b else a
  }

  /** The id an INSERT gives its row: the caller's id when positive, else the next in sequence. */
  function AssignedId(requested: int, last: int): int {
    if requested > 0 then requested else last + 1
  }

  predicate SameNameBrand(a: InventoryItem, b: InventoryItem) {
    a.name == b.name && a.brand == b.brand
  }

  ghost predicate KeysWithin<T>(m: map<int, T>, bound: int) {
    forall k :: k in m ==> 1 <= k <= bound
  }

  ghost predicate UniqueNameBrand(items: map<int, InventoryItem>) {
    forall j, k :: j in items && k in items && j != k ==> !SameNameBrand(items[j], items[k])
  }

  ghost predicate UniqueBarcode(items: map<int, InventoryItem>) {
    forall j, k :: j in items && k in items && j != k && items[j].barcode.Some? ==>
      items[j].barcode != items[k].barcode
  }

  /** Row ids are positive, within the sequence and stored in the row; UNIQUE holds. */
  ghost predicate Valid(db: Db) {
    && db.itemSeq >= 0 && db.saleSeq >= 0 && db.stockInSeq >= 0
    && KeysWithin(db.items, db.itemSeq)
    && KeysWithin(db.sales, db.saleSeq)
    && KeysWithin(db.stockIns, db.stockInSeq)
    && (forall k :: k in db.items ==> db.items[k].id == k)
    && (forall k :: k in db.sales ==> db.sales[k].id == k)
    && (forall k :: k in db.stockIns ==> db.stockIns[k].id == k)
    && UniqueNameBrand(db.items)
    && UniqueBarcode(db.items)
  }

  // ------------------------------------------------------ movement rows

  /** INSERT INTO stock_ins: a taken id violates the primary key. */
  function InsertStockInRow(db: Db, s: StockIn, now: Timestamp): (st: Step<int>)
    ensures st.result.Err? ==> st.db == db && st.result.error == ConstraintViolation
    ensures st.result.Ok? ==> st.result.value !in db.stockIns && st.result.value in st.db.stockIns
  {
    var id := AssignedId(s.id, db.stockInSeq);
    if id in db.stockIns then Step(db, Err(ConstraintViolation))
    else
      Step(db.(stockIns := db.stockIns[id := s.(id := id, createdAt := now)],
               stockInSeq := Max(db.stockInSeq, id)),
           Ok(id))
  }

  /** SELECT of one stock-in by id (get_stock_in_item). */
  function GetStockIn(db: Db, id: int): (r: Result<StockIn>)
    ensures r.Ok? <==> id in db.stockIns
    ensures r.Ok? ==> r.value == db.stockIns[id]
    ensures r.Err? ==> r.error == NotFound
  {
    if id in db.stockIns then Ok(db.stockIns[id]) else Err(NotFound)
  }

  /** DELETE FROM stock_ins WHERE id = ...: removes the row if there is one. */
  function DeleteStockInRow(db: Db, id: int): (d: Db)
    ensures d.stockIns.Keys == db.stockIns.Keys - {id}
    ensures forall k :: k in d.stockIns ==> d.stockIns[k] == db.stockIns[k]
    ensures d.items == db.items && d.sales == db.sales
    ensures d.itemSeq == db.itemSeq && d.saleSeq == db.saleSeq && d.stockInSeq == db.stockInSeq
  {
    db.(stockIns := db.stockIns - {id})
  }

  /** INSERT INTO sales_items: a taken id violates the primary key; item_id is not checked. */
  function InsertSaleRow(db: Db, s: SalesItem, now: Timestamp): (st: Step<int>)
    ensures st.result.Err? ==> st.db == db && st.result.error == ConstraintViolation
    ensures st.result.Ok? ==> st.result.value !in db.sales && st.result.value in st.db.sales
  {
    var id := AssignedId(s.id, db.saleSeq);
    if id in db.sales then Step(db, Err(ConstraintViolation))
    else
      Step(db.(sales := db.sales[id := s.(id := id, createdAt := now)],
               saleSeq := Max(db.saleSeq, id)),
           Ok(id))
  }

  lemma InsertStockInRowSpec(db: Db, s: StockIn, now: Timestamp)
    requires Valid(db)
    ensures var st := InsertStockInRow(db, s, now);
            && (st.result.Ok? <==> s.id <= 0 || s.id !in db.stockIns)
            && Valid(st.db)
            && (st.result.Ok? ==>
                  var id := st.result.value;
                  && id > 0 && (s.id > 0 ==> id == s.id)
                  && (s.id <= 0 ==> forall k :: k in db.stockIns ==> k < id)
                  && st.db == db.(stockIns := db.stockIns[id := s.(id := id, createdAt := now)],
                                  stockInSeq := Max(db.stockInSeq, id)))
  {
  }

  lemma InsertSaleRowSpec(db: Db, s: SalesItem, now: Timestamp)
    requires Valid(db)
    ensures var st := InsertSaleRow(db, s, now);
            && (st.result.Ok? <==> s.id <= 0 || s.id !in db.sales)
            && Valid(st.db)
            && (st.result.Ok? ==>
                  var id := st.result.value;
                  && id > 0 && (s.id > 0 ==> id == s.id)
                  && (s.id <= 0 ==> forall k :: k in db.sales ==> k < id)
                  && st.db == db.(sales := db.sales[id := s.(id := id, createdAt := now)],
                                  saleSeq := Max(db.saleSeq, id)))
  {
  }

  // -------------------------------------------------------------- batches

  /**
   * A loop that applies f to each request in order, collecting the ids it returns,
   * and stops at the first failure, keeping the state that failure reached.
   */
  function Fold<R>(f: (Db, R) -> Step<int>, db: Db, reqs: seq<R>): (st: Step<seq<int>>)
    ensures st.result.Ok? ==> |st.result.value| == |reqs|
    decreases |reqs|
  {
    if reqs == [] then Step(db, Ok([]))
    else
      var prev := Fold(f, db, reqs[..|reqs| - 1]);
      if prev.result.Err? then prev
      else
        var one := f(prev.db, reqs[|reqs| - 1]);
        match one.result
        case Err(e) => Step(one.db, Err(e))
        case Ok(id) => Step(one.db, Ok(prev.result.value + [id]))
  }

  /** A successful loop succeeded on every prefix, and its j-th id is the j-th call's result. */
  lemma {:induction false} FoldSteps<R>(f: (Db, R) -> Step<int>, db: Db, reqs: seq<R>, j: int)
    requires Fold(f, db, reqs).result.Ok? && 0 <= j < |reqs|
    ensures var prev := Fold(f, db, reqs[..j]);
            && prev.result.Ok?
            && f(prev.db, reqs[j]).result == Ok(Fold(f, db, reqs).result.value[j])
    decreases |reqs|
  {
    var init := reqs[..|reqs| - 1];
    if j < |reqs| - 1 {
      FoldSteps(f, db, init, j);
      assert init[..j] == reqs[..j];
      assert init[j] == reqs[j];
    } else {
      assert init == reqs[..j];
    }
  }

  /** A failed loop failed at some request k, after every request before k succeeded. */
  lemma {:induction false} FoldFailure<R>(f: (Db, R) -> Step<int>, db: Db, reqs: seq<R>)
      returns (k: int)
    requires Fold(f, db, reqs).result.Err?
    ensures 0 <= k < |reqs|
    ensures var prev := Fold(f, db, reqs[..k]);
            var one := f(prev.db, reqs[k]);
            && prev.result.Ok?
            && one.result.Err?
            && one.result.error == Fold(f, db, reqs).result.error
            && one.db == Fold(f, db, reqs).db
    decreases |reqs|
  {
    var init := reqs[..|reqs| - 1];
    if Fold(f, db, init).result.Err? {
      k := FoldFailure(f, db, init);
      assert init[..k] == reqs[..k];
      assert init[k] == reqs[k];
    } else {
      k := |reqs| - 1;
      assert init == reqs[..k];
    }
  }

  /** One more turn of the loop after a successful prefix. */
  lemma FoldNext<R>(f: (Db, R) -> Step<int>, db: Db, reqs: seq<R>, i: int)
    requires 0 <= i < |reqs| && Fold(f, db, reqs[..i]).result.Ok?
    ensures var prev := Fold(f, db, reqs[..i]);
            var one := f(prev.db, reqs[i]);
            Fold(f, db, reqs[..i + 1])
              == if one.result.Ok? then Step(one.db, Ok(prev.result.value + [one.result.value]))
                 else Step(one.db, Err(one.result.error))
  {
    assert reqs[..i + 1][..i] == reqs[..i];
  }

  /** Once a prefix of the requests has failed, the loop has stopped: the rest change nothing. */
  lemma {:induction false} FoldStopped<R>(f: (Db, R) -> Step<int>, db: Db, reqs: seq<R>, i: int)
    requires 0 <= i <= |reqs| && Fold(f, db, reqs[..i]).result.Err?
    ensures Fold(f, db, reqs) == Fold(f, db, reqs[..i])
    decreases |reqs| - i
  {
    if i < |reqs| {
      assert reqs[..i + 1][..i] == reqs[..i];
      assert Fold(f, db, reqs[..i + 1]) == Fold(f, db, reqs[..i]);
      FoldStopped(f, db, reqs, i + 1);
    } else {
      assert reqs[..i] == reqs;
    }
  }

  // --------------------------------------------------------------- sums

  /** Sum of w over the rows with ids 1 .. n. */
  function SumTo<T>(m: map<int, T>, w: T -> int, n: int): int
    decreases n
  {
    if n <= 0 then 0 else SumTo(m, w, n - 1) + (if n in m then w(m[n]) else 0)
  }

  lemma {:induction false} SumToPastKeys<T>(m: map<int, T>, w: T -> int, n: int, n': int)
    requires forall k :: k in m ==> k <= n
    requires n <= n'
    ensures SumTo(m, w, n') == SumTo(m, w, n)
    decreases n' - n
  {
    if n < n' {
      SumToPastKeys(m, w, n, n' - 1);
    }
  }

  lemma {:induction false} SumToInsert<T>(m: map<int, T>, w: T -> int, n: int, k: int, v: T)
    requires k !in m
    ensures SumTo(m[k := v], w, n) == SumTo(m, w, n) + (if 1 <= k <= n then w(v) else 0)
    decreases n
  {
    if n > 0 {
      SumToInsert(m, w, n - 1, k, v);
    }
  }

  lemma SumToRemove<T>(m: map<int, T>, w: T -> int, n: int, k: int)
    requires k in m
    ensures SumTo(m - {k}, w, n) == SumTo(m, w, n) - (if 1 <= k <= n then w(m[k]) else 0)
  {
    var rest := m - {k};
    assert rest[k := m[k]] == m;
    SumToInsert(rest, w, n, k, m[k]);
  }

  /** The quantity a stock-in row adds to the given item. */
  function Received(item: int): StockIn -> int {
    (s: StockIn) => if s.itemId == item then s.quantity else 0
  }

  /** The quantity a sales row takes from the given item. */
  function Sold(item: int): SalesItem -> int {
    (s: SalesItem) => if s.itemId == item then s.quantity else 0
  }

  function TotalReceived(db: Db, item: int): int {
    SumTo(db.stockIns, Received(item), db.stockInSeq)
  }

  function TotalSold(db: Db, item: int): int {
    SumTo(db.sales, Sold(item), db.saleSeq)
  }

  /**
   * The quantity the item would hold without its recorded movements.  The ledger
   * invariant, quantity == opening + received - sold, says that no movement changes it.
   */
  function OpeningBalance(db: Db, item: int): int
    requires item in db.items
  {
    db.items[item].quantity - TotalReceived(db, item) + TotalSold(db, item)
  }

  lemma InsertStockInRowTotals(db: Db, s: StockIn, now: Timestamp, item: int)
    requires Valid(db) && InsertStockInRow(db, s, now).result.Ok?
    ensures var d := InsertStockInRow(db, s, now).db;
            && TotalReceived(d, item) == TotalReceived(db, item) + Received(item)(s)
            && TotalSold(d, item) == TotalSold(db, item)
  {
    var st := InsertStockInRow(db, s, now);
    InsertStockInRowSpec(db, s, now);
    var id := st.result.value;
    var d := st.db;
    var row := s.(id := id, createdAt := now);
    assert d.stockIns == db.stockIns[id := row];
    assert 1 <= id <= d.stockInSeq;
    SumToInsert(db.stockIns, Received(item), d.stockInSeq, id, row);
    SumToPastKeys(db.stockIns, Received(item), db.stockInSeq, d.stockInSeq);
    assert Received(item)(row) == Received(item)(s);
  }

  lemma DeleteStockInRowTotals(db: Db, id: int, item: int)
    requires Valid(db) && id in db.stockIns
    ensures var d := DeleteStockInRow(db, id);
            && TotalReceived(d, item) == TotalReceived(db, item) - Received(item)(db.stockIns[id])
            && TotalSold(d, item) == TotalSold(db, item)
  {
    SumToRemove(db.stockIns, Received(item), db.stockInSeq, id);
  }

  lemma InsertSaleRowTotals(db: Db, s: SalesItem, now: Timestamp, item: int)
    requires Valid(db) && InsertSaleRow(db, s, now).result.Ok?
    ensures var d := InsertSaleRow(db, s, now).db;
            && TotalSold(d, item) == TotalSold(db, item) + Sold(item)(s)
            && TotalReceived(d, item) == TotalReceived(db, item)
  {
    var st := InsertSaleRow(db, s, now);
    InsertSaleRowSpec(db, s, now);
    var id := st.result.value;
    var d := st.db;
    var row := s.(id := id, createdAt := now);
    assert d.sales == db.sales[id := row];
    assert 1 <= id <= d.saleSeq;
    SumToInsert(db.sales, Sold(item), d.saleSeq, id, row);
    SumToPastKeys(db.sales, Sold(item), db.saleSeq, d.saleSeq);
    assert Sold(item)(row) == Sold(item)(s);
  }
}
