/**
 * The records the point-of-sale keeps: products, billiard tables, orders,
 * customers, users and coupons. Timestamps are milliseconds since the epoch;
 * item prices are whole currency units; amounts that can be fractional
 * (order totals, discounts, fee overrides) are reals. An absent optional
 * field (`undefined`) is `None`.
 */
module Entities {
  import opened Common

  datatype Product = Product(
    id: Option<int>,
    name: string,
    barcode: string,
    price: int,
    costPrice: int,
    stock: int,
    category: string,
    image: Option<string>)

  datatype TableStatus = Available | Occupied

  datatype BilliardTable = BilliardTable(
    id: Option<int>,
    name: string,
    status: TableStatus,
    currentOrderId: Option<int>,
    pricePerHour: Option<int>)

  datatype OrderStatus = Pending | Completed | Cancelled

  datatype PaymentMethod = Cash | Transfer | Qr

  /** One line of an order, a snapshot of a cart line. */
  datatype OrderLine = OrderLine(
    productId: Option<int>,
    quantity: int,
    price: int,
    originalPrice: Option<int>,
    name: string)

  /** An order note is either one text or a list of texts. */
  datatype Note = NoteText(text: string) | NoteList(lines: seq<string>)

  datatype Order = Order(
    id: Option<int>,
    date: int,
    total: real,
    items: seq<OrderLine>,
    paymentMethod: Option<PaymentMethod>,
    status: OrderStatus,
    tableId: Option<int>,
    customerId: Option<int>,
    note: Option<Note>,
    discount: Option<real>,
    customTableFee: Option<real>,
    customItemsTotal: Option<real>,
    customDuration: Option<int>,
    pricePerHour: Option<int>)

  datatype Customer = Customer(id: Option<int>, name: string, phone: string, points: int)

  /** The declared roles are admin and staff; any other text is kept as such. */
  datatype Role = Admin | Staff | OtherRole(name: string)

  datatype User = User(id: Option<int>, username: string, fullName: string, role: Role)

  datatype CouponType = Percent | Fixed

  datatype Coupon = Coupon(code: string, kind: CouponType, value: real, isActive: bool)
}
