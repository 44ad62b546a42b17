/** What the order-placement workflow guarantees, stated over the product
    table and the request rather than over the lookup's answer: every lemma
    holds for any lookup answer that meets the lookup contract `IsLookup`. */
module OrderProperties {
  import opened Entities
  import opened Seqs
  import opened Repositories
  import opened CreateOrder

  /** Every requested id names a stored product. */
  predicate AllKnown(products: map<ProductId, Product>, request: seq<ProductRequest>) {
    forall k | 0 <= k < |request| :: request[k].id in products
  }

  /** A request the store can serve: known products, no id twice, and enough
      stock for every entry. */
  predicate Fulfillable(products: map<ProductId, Product>, request: seq<ProductRequest>) {
    && AllKnown(products, request)
    && Distinct(Ids(request))
    && (forall k | 0 <= k < |request| :: request[k].quantity <= products[request[k].id].quantity)
  }

  /** `item` is the line item for request entry `entry`: its id, its
      quantity and the stored price. */
  predicate LineItemOf(item: OrderProduct, entry: ProductRequest, products: map<ProductId, Product>) {
    entry.id in products && item == OrderProduct(entry.id, entry.quantity, products[entry.id].price)
  }

  lemma IdsAt(request: seq<ProductRequest>)
    ensures |Ids(request)| == |request|
    ensures forall k | 0 <= k < |request| :: Ids(request)[k] == request[k].id
  {
  }

  /** What an accepted plan consists of, entry by entry. */
  lemma AcceptedPlan(
    customers: map<CustomerId, Customer>, customerId: CustomerId,
    request: seq<ProductRequest>, found: seq<Product>, plan: OrderPlan)
    requires PlanOrder(customers, customerId, request, found) == Ok(plan)
    ensures customerId in customers && plan.customer == customers[customerId]
    ensures |found| == |request| && |plan.orderProducts| == |found| && |plan.updates| == |found|
    ensures forall i | 0 <= i < |found| ::
      && plan.orderProducts[i] == LineItemFor(found[i], request)
      && plan.updates[i] == UpdateFor(found[i], request)
      && !Short(found[i], request)
  {
  }

  /** Every row the lookup returns has a request entry with its id, so the
      fallback quantity 0 is never used for a looked-up product. */
  lemma LookedUpRowsAreRequested(found: seq<Product>, request: seq<ProductRequest>, products: map<ProductId, Product>)
    requires IsLookup(found, Ids(request), products)
    ensures forall i | 0 <= i < |found| :: FindRequest(request, found[i].id).Some?
  {
    forall i | 0 <= i < |found| ensures FindRequest(request, found[i].id).Some? {
      var k :| 0 <= k < |request| && Ids(request)[k] == found[i].id;
      assert request[k].id == found[i].id;
    }
  }

  /** The quantity used for a requested product is that entry's own quantity
      when no id repeats. */
  lemma RequestedQuantityOfEntry(request: seq<ProductRequest>, k: nat)
    requires Distinct(Ids(request))
    requires k < |request|
    ensures RequestedQuantity(request, request[k].id) == request[k].quantity
  {
    var f := FindRequest(request, request[k].id);
    assert f.Some?;
    var j := f.value;
    assert Ids(request)[j] == Ids(request)[k];
  }

  /** The count comparison of the workflow: the lookup returns as many rows as
      there are request entries exactly when every id is stored and no id
      repeats. */
  lemma LookupCountMatches(found: seq<Product>, ids: seq<ProductId>, products: map<ProductId, Product>)
    requires IsLookup(found, ids, products)
    ensures |found| == |ids| <==> (forall k | 0 <= k < |ids| :: ids[k] in products) && Distinct(ids)
  {
    var fids := ProductIds(found);
    assert Elems(fids) == Elems(ids) * products.Keys by {
      forall id | id in Elems(fids) ensures id in Elems(ids) * products.Keys {
        var i :| 0 <= i < |fids| && fids[i] == id;
        assert found[i].id == id;
      }
      forall id | id in Elems(ids) * products.Keys ensures id in Elems(fids) {
        var i :| 0 <= i < |found| && found[i].id == id;
        assert fids[i] == id;
      }
    }
    ElemsCard(fids);
    ElemsCard(ids);
    SubsetCard(Elems(ids) * products.Keys, Elems(ids));
    if (forall k | 0 <= k < |ids| :: ids[k] in products) {
      assert Elems(ids) * products.Keys == Elems(ids);
    }
    if |found| == |ids| {
      assert Elems(ids) * products.Keys == Elems(ids);
      forall k | 0 <= k < |ids| ensures ids[k] in products {
        assert ids[k] in Elems(ids);
      }
    }
  }

  /** The customer is looked up first; a missing customer, and only that, gives `CustomerNotFound`. */
  lemma CustomerNotFoundIff(
    customers: map<CustomerId, Customer>, customerId: CustomerId,
    request: seq<ProductRequest>, found: seq<Product>)
    ensures PlanOrder(customers, customerId, request, found) == Err(CustomerNotFound)
      <==> customerId !in customers
  {
  }

  /** For a known customer, `ProductNotFound` comes exactly from a
      request naming an unknown product or naming a product twice. */
  lemma ProductNotFoundIff(
    customers: map<CustomerId, Customer>, customerId: CustomerId,
    request: seq<ProductRequest>, found: seq<Product>, products: map<ProductId, Product>)
    requires IsLookup(found, Ids(request), products)
    requires customerId in customers
    ensures PlanOrder(customers, customerId, request, found) == Err(ProductNotFound)
      <==> !(AllKnown(products, request) && Distinct(Ids(request)))
  {
    LookupCountMatches(found, Ids(request), products);
    IdsAt(request);
    var r := BuildPlan(customers[customerId], found, request);
    assert r.Err? ==> r.error.InsufficientInventory?;
  }

  /** A request that lists one product twice is refused as `ProductNotFound`,
      however much stock there is. */
  lemma DuplicateRequestRejected(
    customers: map<CustomerId, Customer>, customerId: CustomerId,
    request: seq<ProductRequest>, found: seq<Product>, products: map<ProductId, Product>,
    i: nat, j: nat)
    requires IsLookup(found, Ids(request), products)
    requires customerId in customers
    requires i < j < |request| && request[i].id == request[j].id
    ensures PlanOrder(customers, customerId, request, found) == Err(ProductNotFound)
  {
    assert Ids(request)[i] == Ids(request)[j];
    ProductNotFoundIff(customers, customerId, request, found, products);
  }

  /** When every id is known and distinct, the stock check over the lookup
      answer passes exactly when every entry asks for no more than is on hand. */
  lemma StockCheckMatchesRequest(found: seq<Product>, request: seq<ProductRequest>, products: map<ProductId, Product>)
    requires IsLookup(found, Ids(request), products)
    requires AllKnown(products, request) && Distinct(Ids(request))
    ensures FirstShort(found, request).None?
      <==> (forall k | 0 <= k < |request| :: request[k].quantity <= products[request[k].id].quantity)
    ensures FirstShort(found, request).Some? ==>
      exists k :: 0 <= k < |request| && request[k].quantity > products[request[k].id].quantity
        && products[request[k].id].name == found[FirstShort(found, request).value].name
  {
    if FirstShort(found, request).None? {
      forall k | 0 <= k < |request| ensures request[k].quantity <= products[request[k].id].quantity {
        assert Ids(request)[k] == request[k].id;
        var i :| 0 <= i < |found| && found[i].id == request[k].id;
        assert !Short(found[i], request);
        RequestedQuantityOfEntry(request, k);
      }
    } else {
      var i := FirstShort(found, request).value;
      var k :| 0 <= k < |request| && Ids(request)[k] == found[i].id;
      RequestedQuantityOfEntry(request, k);
      assert request[k].quantity > products[request[k].id].quantity;
    }
  }

  /** `InsufficientInventory` comes exactly from a well-formed request
      of a known customer with some entry asking for more than is on hand,
      and it names such a product. */
  lemma InsufficientInventoryIff(
    customers: map<CustomerId, Customer>, customerId: CustomerId,
    request: seq<ProductRequest>, found: seq<Product>, products: map<ProductId, Product>)
    requires IsLookup(found, Ids(request), products)
    ensures var r := PlanOrder(customers, customerId, request, found);
      (r.Err? && r.error.InsufficientInventory?) <==>
        && customerId in customers
        && AllKnown(products, request) && Distinct(Ids(request))
        && exists k :: 0 <= k < |request| && request[k].quantity > products[request[k].id].quantity
    ensures var r := PlanOrder(customers, customerId, request, found);
      r.Err? && r.error.InsufficientInventory? ==>
        exists k :: 0 <= k < |request| && request[k].quantity > products[request[k].id].quantity
          && products[request[k].id].name == r.error.productName
  {
    if customerId in customers {
      LookupCountMatches(found, Ids(request), products);
      IdsAt(request);
      if AllKnown(products, request) && Distinct(Ids(request)) {
        StockCheckMatchesRequest(found, request, products);
      }
    }
  }

  /** The request succeeds exactly when the customer exists and the request
      is fulfillable. */
  lemma SucceedsIff(
    customers: map<CustomerId, Customer>, customerId: CustomerId,
    request: seq<ProductRequest>, found: seq<Product>, products: map<ProductId, Product>)
    requires IsLookup(found, Ids(request), products)
    ensures PlanOrder(customers, customerId, request, found).Ok?
      <==> customerId in customers && Fulfillable(products, request)
  {
    if customerId in customers {
      LookupCountMatches(found, Ids(request), products);
      IdsAt(request);
      if AllKnown(products, request) && Distinct(Ids(request)) {
        StockCheckMatchesRequest(found, request, products);
      }
    }
  }

  /** On success the order belongs to the looked-up customer and has
      one line item per looked-up product, in lookup order, carrying that
      product's id and a copy of its stored price. */
  lemma OrderProductsFollowLookup(
    customers: map<CustomerId, Customer>, customerId: CustomerId,
    request: seq<ProductRequest>, found: seq<Product>, plan: OrderPlan)
    requires PlanOrder(customers, customerId, request, found) == Ok(plan)
    ensures customerId in customers && plan.customer == customers[customerId]
    ensures |plan.orderProducts| == |found| == |request|
    ensures forall i | 0 <= i < |found| ::
      plan.orderProducts[i].productId == found[i].id && plan.orderProducts[i].price == found[i].price
  {
  }

  /** On success every request entry has its line item: the entry's id and
      quantity with the stored price. */
  lemma EveryEntryHasLineItem(
    customers: map<CustomerId, Customer>, customerId: CustomerId,
    request: seq<ProductRequest>, found: seq<Product>, products: map<ProductId, Product>,
    plan: OrderPlan)
    requires IsLookup(found, Ids(request), products)
    requires PlanOrder(customers, customerId, request, found) == Ok(plan)
    ensures |plan.orderProducts| == |found|
    ensures forall k | 0 <= k < |request| ::
      exists i :: 0 <= i < |found| && LineItemOf(plan.orderProducts[i], request[k], products)
  {
    SucceedsIff(customers, customerId, request, found, products);
    AcceptedPlan(customers, customerId, request, found, plan);
    forall k | 0 <= k < |request|
      ensures exists i :: 0 <= i < |found| && LineItemOf(plan.orderProducts[i], request[k], products)
    {
      assert Ids(request)[k] == request[k].id;
      var i :| 0 <= i < |found| && found[i].id == request[k].id;
      RequestedQuantityOfEntry(request, k);
      assert LineItemOf(plan.orderProducts[i], request[k], products);
    }
  }

  /** On success every line item stands for a request entry: nothing is
      ordered that was not asked for. */
  lemma EveryLineItemRequested(
    customers: map<CustomerId, Customer>, customerId: CustomerId,
    request: seq<ProductRequest>, found: seq<Product>, products: map<ProductId, Product>,
    plan: OrderPlan)
    requires IsLookup(found, Ids(request), products)
    requires PlanOrder(customers, customerId, request, found) == Ok(plan)
    ensures |plan.orderProducts| == |found|
    ensures forall i | 0 <= i < |found| ::
      exists k :: 0 <= k < |request| && LineItemOf(plan.orderProducts[i], request[k], products)
  {
    SucceedsIff(customers, customerId, request, found, products);
    AcceptedPlan(customers, customerId, request, found, plan);
    forall i | 0 <= i < |found|
      ensures exists k :: 0 <= k < |request| && LineItemOf(plan.orderProducts[i], request[k], products)
    {
      var k :| 0 <= k < |request| && Ids(request)[k] == found[i].id;
      RequestedQuantityOfEntry(request, k);
      assert LineItemOf(plan.orderProducts[i], request[k], products);
    }
  }

  /** The stock updates pair up with the line items: same length, same order,
      same ids, and each new quantity is the old one less the line item's
      quantity, never negative. */
  lemma UpdatesMatchOrderProducts(
    customers: map<CustomerId, Customer>, customerId: CustomerId,
    request: seq<ProductRequest>, found: seq<Product>, plan: OrderPlan)
    requires PlanOrder(customers, customerId, request, found) == Ok(plan)
    ensures |plan.updates| == |plan.orderProducts| == |found|
    ensures forall i | 0 <= i < |found| ::
      && plan.updates[i].id == plan.orderProducts[i].productId == found[i].id
      && plan.updates[i].quantity == found[i].quantity - plan.orderProducts[i].quantity
      && plan.updates[i].quantity >= 0
  {
  }

  /** After a successful order every requested product's stock has
      dropped by exactly the requested quantity, and no other row changed. */
  lemma StockAfterOrder(
    customers: map<CustomerId, Customer>, customerId: CustomerId,
    request: seq<ProductRequest>, found: seq<Product>, products: map<ProductId, Product>,
    plan: OrderPlan)
    requires IsLookup(found, Ids(request), products)
    requires PlanOrder(customers, customerId, request, found) == Ok(plan)
    ensures ApplyUpdates(products, plan.updates).Keys == products.Keys
    ensures AllKnown(products, request)
    ensures forall k | 0 <= k < |request| ::
      ApplyUpdates(products, plan.updates)[request[k].id]
        == products[request[k].id].(quantity := products[request[k].id].quantity - request[k].quantity)
    ensures forall id | id in products && id !in Ids(request) ::
      ApplyUpdates(products, plan.updates)[id] == products[id]
  {
    SucceedsIff(customers, customerId, request, found, products);
    AcceptedPlan(customers, customerId, request, found, plan);
    UpdatesOfLookup(found, request, products, plan.updates);
  }

  /** The stock updates built from a lookup of known, distinct ids take each
      requested product down by its entry's quantity and touch nothing else. */
  lemma UpdatesOfLookup(
    found: seq<Product>, request: seq<ProductRequest>, products: map<ProductId, Product>,
    updates: seq<QuantityUpdate>)
    requires IsLookup(found, Ids(request), products)
    requires AllKnown(products, request) && Distinct(Ids(request))
    requires |updates| == |found|
    requires forall i | 0 <= i < |found| :: updates[i] == UpdateFor(found[i], request)
    ensures ApplyUpdates(products, updates).Keys == products.Keys
    ensures forall k | 0 <= k < |request| ::
      ApplyUpdates(products, updates)[request[k].id]
        == products[request[k].id].(quantity := products[request[k].id].quantity - request[k].quantity)
    ensures forall id | id in products && id !in Ids(request) ::
      ApplyUpdates(products, updates)[id] == products[id]
  {
    IdsAt(request);
    assert UpdateIds(updates) == ProductIds(found);
    ApplyUpdatesEffect(products, updates);
    forall k | 0 <= k < |request|
      ensures ApplyUpdates(products, updates)[request[k].id]
        == products[request[k].id].(quantity := products[request[k].id].quantity - request[k].quantity)
    {
      var i :| 0 <= i < |found| && found[i].id == request[k].id;
      RequestedQuantityOfEntry(request, k);
      assert UpdateIds(updates)[i] == request[k].id;
    }
    assert forall i | 0 <= i < |updates| :: UpdateIds(updates)[i] in Ids(request);
  }

  /** A successful order never leaves a product with negative stock. */
  lemma StockStaysNonNegative(
    customers: map<CustomerId, Customer>, customerId: CustomerId,
    request: seq<ProductRequest>, found: seq<Product>, products: map<ProductId, Product>,
    plan: OrderPlan)
    requires IsLookup(found, Ids(request), products)
    requires forall id | id in products :: products[id].quantity >= 0
    requires PlanOrder(customers, customerId, request, found) == Ok(plan)
    ensures forall id | id in ApplyUpdates(products, plan.updates) ::
      ApplyUpdates(products, plan.updates)[id].quantity >= 0
  {
    SucceedsIff(customers, customerId, request, found, products);
    StockAfterOrder(customers, customerId, request, found, products, plan);
    IdsAt(request);
    var after := ApplyUpdates(products, plan.updates);
    forall id | id in after ensures after[id].quantity >= 0 {
      if id in Ids(request) {
        var k :| 0 <= k < |request| && Ids(request)[k] == id;
      }
    }
  }

  /** Nothing requires a non-empty request: a known customer with an empty
      request gets an order without line items and no stock changes. */
  lemma EmptyRequestAccepted(
    customers: map<CustomerId, Customer>, customerId: CustomerId,
    found: seq<Product>, products: map<ProductId, Product>)
    requires IsLookup(found, [], products)
    requires customerId in customers
    ensures PlanOrder(customers, customerId, [], found) == Ok(OrderPlan(customers[customerId], [], []))
  {
    LookupCountMatches(found, [], products);
    assert |Ids([])| == 0;
    assert PlanOrder(customers, customerId, [], found) == BuildPlan(customers[customerId], [], []);
    var plan := BuildPlan(customers[customerId], [], []);
    assert FirstShort([], []) == None;
    assert plan.value.orderProducts == [] && plan.value.updates == [];
  }
}
