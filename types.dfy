/** The kiosk's value entities. Money is kept in integer minor units
    (céntimos); timestamps are opaque ISO strings supplied by the caller. */
module Types {

  datatype Option<+T> = None | Some(value: T)

  /** JavaScript truthiness of a `string | null`: null and "" are both falsy. */
  predicate Truthy(s: Option<string>)
  {
    s.Some? && s.value != ""
  }

  /** A catalog product. The image fields are not modelled. */
  datatype Product = Product(id: string, name: string, price: int, category: string)

  /** One cart line: a snapshot of the product and how many units. */
  datatype CartItem = CartItem(product: Product, quantity: int)

  /** A denormalised copy of a cart line taken when payment is confirmed. */
  datatype OrderLine = OrderLine(productId: string, name: string, category: string,
                                 unitPrice: int, quantity: int, subtotal: int)

  datatype Order = Order(id: string, total: int, paidAt: string, lines: seq<OrderLine>)

  /** `key` is the case-insensitive identity, `name` the display form. */
  datatype Category = Category(key: string, name: string)

  /** The four screens of the kiosk. */
  datatype Screen = WelcomeScreen | OrderScreen | CheckoutScreen | EndDayScreen

  function ProductName(p: Product): string { p.name }
  function ProductId(p: Product): string { p.id }
  function CategoryName(c: Category): string { c.name }
  function CategoryKeyOf(c: Category): string { c.key }
  function OrderId(o: Order): string { o.id }
}
