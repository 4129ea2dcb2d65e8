/** Product records and the products table: rows are live records or the tombstones that soft deletion leaves. */
module Products {
  import opened Options

  /** Prices are whole cents (the column is decimal(10,2)); the two timestamps are kept as their RFC 3339 text. */
  datatype Product = Product(
    id: nat, createdAt: string, updatedAt: string,
    name: string, description: string, price: int, stock: int, status: int, categoryId: nat)

  datatype Row = Live(product: Product) | Tombstone

  type Table = map<nat, Row>

  /** Every live row is stored under its own id. */
  ghost predicate WellKeyed(table: Table) {
    forall id :: id in table && table[id].Live? ==> table[id].product.id == id
  }

  /** What a query by primary key sees: tombstones are invisible. */
  function Lookup(table: Table, id: nat): Option<Product> {
    if id in table && table[id].Live? then Some(table[id].product) else None
  }

  /** One committed write to the row of an id: a full-record put, or a soft delete. */
  function Write(table: Table, id: nat, value: Option<Product>): Table {
    match value
    case Some(p) => table[id := Live(p)]
    case None => table[id := Tombstone]
  }
}
