/**
 * The rows of the pharmacy database (inventory items, sales items, stock-ins), the
 * error kinds that the C++ code raises as exceptions, and the expiry predicate of an
 * inventory item.
 */
module Records {
  import opened Wrappers
  import opened Expiry

  /** A database timestamp (CURRENT_TIMESTAMP at insert time), supplied by the caller. */
  type Timestamp = int

  /**
   * An inventory item.  Ids are positive; (name, brand) and a present barcode are
   * unique across the table.  The expiry date is free text ("YYYY-MM-DD" when set).
   */
  datatype InventoryItem = InventoryItem(
    id: int,
    name: string,
    brand: string,
    quantity: int,
    costPrice: real,
    sellingPrice: real,
    expiryDate: string,
    createdAt: Timestamp,
    barcode: Option<string>)

  /** A sale: the item name is the caller's snapshot, not re-read from the item. */
  datatype SalesItem = SalesItem(
    id: int,
    itemId: int,
    itemName: string,
    quantity: int,
    costPrice: real,
    sellingPrice: real,
    createdAt: Timestamp)

  /** A stock receipt for the inventory item itemId. */
  datatype StockIn = StockIn(
    id: int,
    itemId: int,
    quantity: int,
    invoiceNo: string,
    batchNo: string,
    expiryDate: string,
    createdAt: Timestamp)

  /**
   * NotFound: no row matched a lookup; ConstraintViolation: SQLite refused a write
   * (primary key or UNIQUE); InvalidArgument: std::invalid_argument; Insufficient:
   * a sale asks for more than the item's quantity.
   */
  datatype Error =
    | NotFound
    | ConstraintViolation
    | InvalidArgument
    | InsufficientQuantity(itemId: int, requested: int, available: int)

  datatype Result<T> = Ok(value: T) | Err(error: Error)

  /**
   * InventoryItem::is_expired, with the clock reading passed in as the reference
   * day: expired when the expiry day is today or earlier, and also when the expiry
   * text is missing or not a valid date.
   */
  predicate IsExpired(item: InventoryItem, today: Date)
    requires IsCalendarDate(today)
  {
    DaysToExpiry(item.expiryDate, today) <= 0
  }

  lemma IsExpiredMeaning(item: InventoryItem, today: Date)
    requires IsCalendarDate(today)
    ensures !ValidateExpiryDate(item.expiryDate) ==> IsExpired(item, today)
    ensures ValidateExpiryDate(item.expiryDate) && IsCalendarDate(ParseDate(item.expiryDate).value) ==>
              (IsExpired(item, today) <==> !Before(today, ParseDate(item.expiryDate).value))
  {
    if ValidateExpiryDate(item.expiryDate) && IsCalendarDate(ParseDate(item.expiryDate).value) {
      DaysToExpirySign(item.expiryDate, today);
    }
  }

  lemma IsExpiredExamples(item: InventoryItem)
    ensures item.expiryDate == "" ==> IsExpired(item, Date(2024, 2, 4))
    ensures item.expiryDate == "2024-02-04" ==> IsExpired(item, Date(2024, 2, 4))
    ensures item.expiryDate == "2024-02-10" ==> !IsExpired(item, Date(2024, 2, 4))
  {
    DaysToExpiryWithinMonth();
  }
}
