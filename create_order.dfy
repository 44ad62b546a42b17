/** The order-placement workflow (`CreateOrderService.execute`): check the
    customer, look the requested products up in one batch, reject a request
    whose lookup count differs from the number of entries, check stock product
    by product, then write the order and after it the stock updates. */
module CreateOrder {
  import opened Entities
  import opened Seqs
  import opened Repositories

  /** The ids of the request, one per entry, duplicates kept. */
  function Ids(request: seq<ProductRequest>): seq<ProductId> {
    seq(|request|, i requires 0 <= i < |request| => request[i].id)
  }

  /** The index of the first request entry for `id`, if any. */
  function FindRequest(request: seq<ProductRequest>, id: ProductId): (r: Option<nat>)
    ensures r.Some? ==> r.value < |request| && request[r.value].id == id
    ensures r.Some? ==> forall j | 0 <= j < r.value :: request[j].id != id
    ensures r.None? ==> forall j | 0 <= j < |request| :: request[j].id != id
  {
    if request == [] then None
    else if request[0].id == id then Some(0)
    else match FindRequest(request[1..], id)
      case None => None
      case Some(i) => Some(i + 1)
  }

  /** The quantity the workflow uses for a product: that of the first entry
      with its id, or 0 when no entry has it. */
  function RequestedQuantity(request: seq<ProductRequest>, id: ProductId): (q: int)
    ensures (forall j | 0 <= j < |request| :: request[j].id != id) ==> q == 0
    ensures forall j | 0 <= j < |request| && request[j].id == id ::
      (forall m | 0 <= m < j :: request[m].id != id) ==> q == request[j].quantity
  {
    match FindRequest(request, id)
    case Some(i) => request[i].quantity
    case None => 0
  }

  /** The stock check: the product would go below zero. */
  predicate Short(p: Product, request: seq<ProductRequest>) {
    p.quantity - RequestedQuantity(request, p.id) < 0
  }

  /** The index of the first looked-up product that fails the stock check. */
  function FirstShort(found: seq<Product>, request: seq<ProductRequest>): (r: Option<nat>)
    ensures r.Some? ==> r.value < |found| && Short(found[r.value], request)
    ensures r.Some? ==> forall j | 0 <= j < r.value :: !Short(found[j], request)
    ensures r.None? ==> forall j | 0 <= j < |found| :: !Short(found[j], request)
  {
    if found == [] then None
    else if Short(found[0], request) then Some(0)
    else match FirstShort(found[1..], request)
      case None => None
      case Some(i) => Some(i + 1)
  }

  function LineItemFor(p: Product, request: seq<ProductRequest>): OrderProduct {
    OrderProduct(p.id, RequestedQuantity(request, p.id), p.price)
  }

  function UpdateFor(p: Product, request: seq<ProductRequest>): QuantityUpdate {
    QuantityUpdate(p.id, p.quantity - RequestedQuantity(request, p.id))
  }

  /** What an accepted request writes: the order's customer and line items,
      and the stock updates. */
  datatype OrderPlan = OrderPlan(
    customer: Customer,
    orderProducts: seq<OrderProduct>,
    updates: seq<QuantityUpdate>)

  /** The stock check and the line items and stock updates built from the
      looked-up products, in lookup order. */
  function BuildPlan(customer: Customer, found: seq<Product>, request: seq<ProductRequest>): Result<OrderPlan> {
    match FirstShort(found, request)
    case Some(i) => Err(InsufficientInventory(found[i].name))
    case None => Ok(OrderPlan(
      customer,
      seq(|found|, i requires 0 <= i < |found| => LineItemFor(found[i], request)),
      seq(|found|, i requires 0 <= i < |found| => UpdateFor(found[i], request))))
  }

  /** The outcome of the workflow for a request, given the customer table and
      the answer `found` of the product lookup. */
  function PlanOrder(
    customers: map<CustomerId, Customer>,
    customerId: CustomerId,
    request: seq<ProductRequest>,
    found: seq<Product>): Result<OrderPlan>
  {
    if customerId !in customers then Err(CustomerNotFound)
    else if |Ids(request)| != |found| then Err(ProductNotFound)
    else BuildPlan(customers[customerId], found, request)
  }

  /** The loop over the looked-up products: stops at the first product whose
      stock would go negative, otherwise grows the line items and the stock
      updates side by side. */
  method BuildOrderProducts(customer: Customer, found: seq<Product>, request: seq<ProductRequest>)
    returns (r: Result<OrderPlan>)
    ensures r == BuildPlan(customer, found, request)
  {
    var orderProducts: seq<OrderProduct> := [];
    var updateProducts: seq<QuantityUpdate> := [];
    var i := 0;
    while i < |found|
      invariant 0 <= i <= |found|
      invariant forall j | 0 <= j < i :: !Short(found[j], request)
      invariant |orderProducts| == i && |updateProducts| == i
      invariant forall j | 0 <= j < i :: orderProducts[j] == LineItemFor(found[j], request)
      invariant forall j | 0 <= j < i :: updateProducts[j] == UpdateFor(found[j], request)
    {
      var product := found[i];
      var quantity := RequestedQuantity(request, product.id);
      if product.quantity - quantity < 0 {
        assert FirstShort(found, request) == Some(i);
        return Err(InsufficientInventory(product.name));
      }
      updateProducts := updateProducts + [QuantityUpdate(product.id, product.quantity - quantity)];
      orderProducts := orderProducts + [OrderProduct(product.id, quantity, product.price)];
      i := i + 1;
    }
    assert FirstShort(found, request).None?;
    assert orderProducts == seq(|found|, j requires 0 <= j < |found| => LineItemFor(found[j], request));
    assert updateProducts == seq(|found|, j requires 0 <= j < |found| => UpdateFor(found[j], request));
    r := Ok(OrderPlan(customer, orderProducts, updateProducts));
  }

  class CreateOrderService {
    const db: Database

    constructor (db: Database)
      ensures this.db == db
    {
      this.db := db;
    }

    /** Places an order. `found` is the answer the product lookup gave; on
        every path the outcome and the new state are those `PlanOrder`
        describes for it, and the repository calls are logged in order. */
    method Execute(customerId: CustomerId, request: seq<ProductRequest>)
      returns (r: Result<Order>, ghost found: seq<Product>)
      requires db.Valid()
      modifies db
      ensures db.Valid()
      ensures db.customers == old(db.customers)
      ensures customerId in old(db.customers) ==> IsLookup(found, Ids(request), old(db.products))
      ensures
        var outcome := PlanOrder(old(db.customers), customerId, request, found);
        var id := |old(db.orders)|;
        && (outcome.Err? ==>
              && r == Err(outcome.error)
              && db.products == old(db.products)
              && db.orders == old(db.orders)
              && db.log == old(db.log) + [FindCustomer(customerId)] +
                   (if customerId in old(db.customers) then [FindProducts(Ids(request))] else []))
        && (outcome.Ok? ==>
              && r == Ok(Order(id, None, outcome.value.customer, outcome.value.orderProducts))
              && db.orders == old(db.orders) + [Order(id, Some(customerId), outcome.value.customer, outcome.value.orderProducts)]
              && db.products == ApplyUpdates(old(db.products), outcome.value.updates)
              && db.log == old(db.log) + [FindCustomer(customerId), FindProducts(Ids(request)),
                                          CreateOrder(id), UpdateQuantities(outcome.value.updates)])
    {
      found := [];
      var customer := db.FindCustomerById(customerId);
      if customer.None? {
        return Err(CustomerNotFound), found;
      }

      var allIds := Ids(request);
      var allProducts := db.FindAllById(allIds);
      found := allProducts;
      if |allIds| != |allProducts| {
        return Err(ProductNotFound), found;
      }

      var plan := BuildOrderProducts(customer.value, allProducts, request);
      if plan.Err? {
        return Err(plan.error), found;
      }

      var order := db.Create(customer.value, plan.value.orderProducts);
      r := Ok(order.(customerId := None));
      db.UpdateQuantity(plan.value.updates);
    }
  }
}
