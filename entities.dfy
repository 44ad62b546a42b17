/** The values the order-placement workflow reads and writes: customers,
    products, the requested (id, quantity) pairs, order line items, stock
    updates and the order aggregate (the shape of the `orders` entity). */
module Entities {

  type CustomerId = string
  type ProductId = string

  /** Orders get generated identifiers; the model numbers them in creation order. */
  type OrderId = nat

  datatype Option<T> = None | Some(value: T)

  /** The three validation failures of the workflow. */
  datatype Error =
    | CustomerNotFound
    | ProductNotFound
    | InsufficientInventory(productName: string)

  datatype Result<T> = Ok(value: T) | Err(error: Error)

  /** A price in hundredths (decimal with two places). The workflow only copies it. */
  datatype Money = Money(cents: int)

  datatype Customer = Customer(id: CustomerId)

  /** A row of the product table; `quantity` is the quantity on hand. */
  datatype Product = Product(id: ProductId, name: string, price: Money, quantity: int)

  /** One entry of the request: a product id and the quantity wanted. */
  datatype ProductRequest = ProductRequest(id: ProductId, quantity: int)

  /** A line item of an order (`orders_products`): the price is a snapshot. */
  datatype OrderProduct = OrderProduct(productId: ProductId, quantity: int, price: Money)

  /** A stock update handed to the product repository: the new quantity on hand. */
  datatype QuantityUpdate = QuantityUpdate(id: ProductId, quantity: int)

  /** An order. `customerId` is the foreign-key field; it is `None` once
      removed from the value returned to the caller. */
  datatype Order = Order(
    id: OrderId,
    customerId: Option<CustomerId>,
    customer: Customer,
    orderProducts: seq<OrderProduct>)
}
